/** The janitor's two maps and their critical sections, each a move of the registry's protocol. */
module Janitor {
  import opened Options
  import opened Registry

  function Lookup(m: map<nat, Entry>, key: nat): Option<Entry> {
    if key in m then Some(m[key]) else None
  }

  /** Two maps that agree everywhere but at one key. */
  ghost predicate SameBut(a: map<nat, Entry>, b: map<nat, Entry>, key: nat) {
    forall k :: k != key ==> Lookup(a, k) == Lookup(b, k)
  }

  class Sets {
    var regions: map<nat, Entry>
    var wiped: map<nat, Entry>
    var minted: nat

    /** No registration is in both sets, and none has a key not yet minted. */
    ghost predicate Valid()
      reads this
    {
      && (forall k :: k in regions ==> k !in wiped)
      && forall k :: k in regions || k in wiped ==> 0 < k <= minted
    }

    /** The entries of a key are what its cell says. */
    ghost predicate Files(c: Cell, key: nat)
      reads this
    {
      c.live == Lookup(regions, key) && c.wiped == Lookup(wiped, key)
    }

    constructor ()
      ensures Valid() && regions == map[] && wiped == map[] && minted == 0
    {
      regions, wiped, minted := map[], map[], 0;
    }

    /** The counter does not wrap, so the key it mints is in neither set and is never refused. */
    method Register(lock: nat, canary: nat) returns (key: nat, ok: bool)
      requires Valid()
      modifies this
      ensures Valid() && minted == old(minted) + 1
      ensures ok && key == minted && regions == old(regions)[key := Entry(lock, canary)] && wiped == old(wiped)
    {
      minted := minted + 1;
      key, ok := minted, false;
      if key == 0 || key in regions || key in wiped {
        assert false;
        return;
      }
      regions := regions[key := Entry(lock, canary)];
      ok := true;
    }

    /** takeAny's first critical section. */
    method Take(key: nat, ghost c: Cell) returns (e: Option<Entry>)
      requires Valid() && Files(c, key)
      modifies this
      ensures Valid() && e == c.live && minted == old(minted)
      ensures var (c', q) := Act(c, DTake, false); Files(c', key) && (q.Freeing? <==> e.Some?)
      ensures SameBut(old(regions), regions, key) && wiped == old(wiped)
    {
      e := Lookup(regions, key);
      if e.Some? {
        regions := regions - {key};
      }
    }

    /** takeAny's second. */
    method TakeWiped(key: nat, ghost c: Cell) returns (e: Option<Entry>)
      requires Valid() && Files(c, key)
      modifies this
      ensures Valid() && e == c.wiped && minted == old(minted)
      ensures var (c', q) := Act(c, DTakeWiped, false); Files(c', key) && (q.Freeing? <==> e.Some?)
      ensures regions == old(regions) && SameBut(old(wiped), wiped, key)
    {
      e := Lookup(wiped, key);
      if e.Some? {
        wiped := wiped - {key};
      }
    }

    method PeekAny(key: nat, ghost c: Cell) returns (e: Option<Entry>)
      requires Files(c, key)
      ensures e.Some? <==> InEither(c)
      ensures e.Some? ==> e.value == Registry.PeekAny(c)
      ensures Act(c, TryPeek, false).1 == if e.Some? then TryLock(e.value.lock) else Done(Gone)
    {
      e := Lookup(regions, key);
      if e.None? {
        e := Lookup(wiped, key);
      }
    }

    /** Only the registration whose lock the caller holds is taken. */
    method TakeAnyIf(key: nat, lock: nat, ghost c: Cell) returns (e: Option<Entry>)
      requires Valid() && Files(c, key)
      modifies this
      ensures Valid() && minted == old(minted)
      ensures var (c', q) := Act(c, CIn(lock), false);
        Files(c', key) && (q.Freeing? <==> e.Some?) && (e.Some? ==> e.value == Registry.PeekAny(c) && e.value.lock == lock)
      ensures SameBut(old(regions), regions, key) && SameBut(old(wiped), wiped, key)
    {
      if key in regions {
        if regions[key].lock != lock {
          return None;
        }
        e := Some(regions[key]);
        regions := regions - {key};
      } else if key in wiped {
        if wiped[key].lock != lock {
          return None;
        }
        e := Some(wiped[key]);
        wiped := wiped - {key};
      } else {
        e := None;
      }
    }

    /** The transfer is one critical section: at no point is the key in neither set. */
    method MoveToWipedIf(key: nat, lock: nat, ghost c: Cell) returns (e: Entry, wasLive: bool, ok: bool)
      requires Valid() && Files(c, key)
      modifies this
      ensures Valid() && minted == old(minted)
      ensures var (c', q) := Act(c, InPass(lock), false);
        Files(c', key) && q == if ok then Wiping(e, wasLive) else Leave(Gone)
      ensures SameBut(old(regions), regions, key) && SameBut(old(wiped), wiped, key)
    {
      e, wasLive, ok := Entry(0, 0), false, false;
      if key in regions {
        if regions[key].lock == lock {
          e, wasLive, ok := regions[key], true, true;
          regions := regions - {key};
          wiped := wiped[key := e.(canary := 0)];
        }
      } else if key in wiped {
        if wiped[key].lock == lock {
          e, ok := wiped[key], true;
        }
      }
    }

    /** Undoes the transfer. */
    method ReturnToLive(key: nat, e: Entry, ghost c: Cell)
      requires Valid() && Files(c, key)
      modifies this
      ensures Valid() && minted == old(minted) && Files(Act(c, Restore(e), false).0, key)
      ensures SameBut(old(regions), regions, key) && SameBut(old(wiped), wiped, key)
    {
      if key in wiped && wiped[key].lock == e.lock {
        wiped := wiped - {key};
        regions := regions[key := e];
      }
    }
  }

  /** Moved and returned, a live registration is back as it was, layout included. */
  method MoveAndReturn(s: Sets, key: nat, lock: nat, ghost c: Cell)
    requires s.Valid() && s.Files(c, key) && c.live.Some? && c.live.value.lock == lock
    modifies s
    ensures s.Valid() && s.regions == old(s.regions) && s.wiped == old(s.wiped)
  {
    ghost var regions, wiped := s.regions, s.wiped;
    var e, wasLive, ok := s.MoveToWipedIf(key, lock, c);
    s.ReturnToLive(key, e, Act(c, InPass(lock), false).0);
    SameMaps(regions, s.regions, key);
    SameMaps(wiped, s.wiped, key);
  }

  lemma SameMaps(a: map<nat, Entry>, b: map<nat, Entry>, key: nat)
    requires SameBut(a, b, key) && Lookup(a, key) == Lookup(b, key)
    ensures a == b
  {
    forall k
      ensures (k in a <==> k in b) && (k in a ==> a[k] == b[k])
    {
      assert Lookup(a, k) == Lookup(b, k);
    }
  }
}
