/** The allowlist index of redact/sanitizer.go: sorted ends, sorted starts and a running maximum of ends. */
module AllowIndex {

  datatype Span = Span(start: int, end: int)

  /** What the index must answer: some span ends at start, or contains the whole match. */
  ghost predicate Spared(spans: seq<Span>, start: int, end: int) {
    exists s :: s in spans && (s.end == start || (s.start <= start && end <= s.end))
  }

  ghost predicate Sorted(a: seq<int>) {
    forall i, j :: 0 <= i <= j < |a| ==> a[i] <= a[j]
  }

  function Ends(spans: seq<Span>): (e: seq<int>)
    ensures |e| == |spans| && forall i :: 0 <= i < |e| ==> e[i] == spans[i].end
  {
    seq(|spans|, i requires 0 <= i < |spans| => spans[i].end)
  }

  function Starts(spans: seq<Span>): (e: seq<int>)
    ensures |e| == |spans| && forall i :: 0 <= i < |e| ==> e[i] == spans[i].start
  {
    seq(|spans|, i requires 0 <= i < |spans| => spans[i].start)
  }

  function Greatest(e: seq<int>): int
    requires e != []
  {
    if |e| == 1 then e[0]
    else
      var m := Greatest(e[..|e| - 1]);
      if e[|e| - 1] > m then e[|e| - 1] else m
  }

  lemma {:induction false} GreatestBounds(e: seq<int>, j: nat)
    requires j < |e|
    ensures e[j] <= Greatest(e)
  {
    if j >= |e| - 1 {
    } else {
      GreatestBounds(e[..|e| - 1], j);
    }
  }

  lemma {:induction false} GreatestIsOne(e: seq<int>) returns (j: nat)
    requires e != []
    ensures j < |e| && e[j] == Greatest(e)
  {
    if |e| == 1 || e[|e| - 1] > Greatest(e[..|e| - 1]) {
      j := |e| - 1;
    } else {
      j := GreatestIsOne(e[..|e| - 1]);
    }
  }

  /** m[i] is the greatest of e[0..i]. */
  ghost predicate RunningMax(m: seq<int>, e: seq<int>) {
    |m| == |e| && forall i :: 0 <= i < |m| ==> m[i] == Greatest(e[..i + 1])
  }

  datatype Index = Index(ends: seq<int>, starts: seq<int>, maxEnd: seq<int>)

  /** The index answers for these spans, in whatever order the sort left equal starts. */
  ghost predicate Indexes(x: Index, spans: seq<Span>) {
    exists byStart: seq<Span> :: multiset(byStart) == multiset(spans) && Lists(x, byStart)
  }

  /** The index's three lists, for the spans in the order of their starts. */
  ghost predicate Lists(x: Index, byStart: seq<Span>) {
    && Sorted(x.starts) && x.starts == Starts(byStart)
    && RunningMax(x.maxEnd, Ends(byStart))
    && Sorted(x.ends) && multiset(x.ends) == multiset(Ends(byStart))
  }

  /**
   * Builds the index. byStart and ends stand for the two sorts' results: any
   * ordering by start of the spans, and the ends in order.
   */
  method Build(spans: seq<Span>, byStart: seq<Span>, ends: seq<int>) returns (x: Index)
    requires multiset(byStart) == multiset(spans) && Sorted(Starts(byStart))
    requires multiset(ends) == multiset(Ends(byStart)) && Sorted(ends)
    ensures Indexes(x, spans)
  {
    var maxEnd: seq<int> := [];
    ghost var e := Ends(byStart);
    for i := 0 to |byStart|
      invariant |maxEnd| == i && forall k :: 0 <= k < i ==> maxEnd[k] == Greatest(e[..k + 1])
    {
      var end := byStart[i].end;
      assert e[..i + 1][..i] == e[..i];
      if i == 0 || end > maxEnd[i - 1] {
        maxEnd := maxEnd + [end];
      } else {
        maxEnd := maxEnd + [maxEnd[i - 1]];
      }
    }
    x := Index(ends, Starts(byStart), maxEnd);
    assert Lists(x, byStart);
  }

  /** The first place whose value is not below v. */
  method Search(a: seq<int>, v: int) returns (i: nat)
    requires Sorted(a)
    ensures i <= |a|
    ensures forall k :: 0 <= k < i ==> a[k] < v
    ensures forall k :: i <= k < |a| ==> a[k] >= v
  {
    i := 0;
    var j := |a|;
    while i < j
      invariant 0 <= i <= j <= |a|
      invariant forall k :: 0 <= k < i ==> a[k] < v
      invariant forall k :: j <= k < |a| ==> a[k] >= v
    {
      var h := (i + j) / 2;
      if a[h] < v {
        i := h + 1;
      } else {
        j := h;
      }
    }
  }

  /** The lookups give the answer of a scan over every span. */
  method Exempts(x: Index, start: int, end: int, ghost spans: seq<Span>) returns (yes: bool)
    requires Indexes(x, spans)
    ensures yes <==> Spared(spans, start, end)
  {
    ghost var byStart: seq<Span> :| multiset(byStart) == multiset(spans) && Lists(x, byStart);
    SameCount(x.ends, byStart);
    SameEnds(x.ends, byStart, start);
    SparedSame(spans, byStart, start, end);
    hide Spared, RunningMax;
    if |x.ends| == 0 {
      NoneSpared(byStart, start, end);
      return false;
    }
    var i := Search(x.ends, start);
    if i < |x.ends| && x.ends[i] == start {
      EndSpares(byStart, start, end);
      return true;
    }
    assert start !in x.ends;
    var j := Search(x.starts, start + 1);
    yes := j > 0 && x.maxEnd[j - 1] >= end;
    Contained(x, byStart, start, end, j);
  }

  lemma SparedSame(a: seq<Span>, b: seq<Span>, start: int, end: int)
    requires multiset(a) == multiset(b)
    ensures Spared(a, start, end) <==> Spared(b, start, end)
  {
    SameSpans(a, b);
  }

  lemma NoneSpared(spans: seq<Span>, start: int, end: int)
    requires spans == []
    ensures !Spared(spans, start, end)
  {
  }

  lemma EndSpares(spans: seq<Span>, start: int, end: int)
    requires exists s :: s in spans && s.end == start
    ensures Spared(spans, start, end)
  {
  }

  /** With no span ending at start, containment is decided by the maximum over the prefix. */
  lemma Contained(x: Index, byStart: seq<Span>, start: int, end: int, j: nat)
    requires x.starts == Starts(byStart) && RunningMax(x.maxEnd, Ends(byStart))
    requires j <= |byStart| && (forall k :: 0 <= k < j ==> x.starts[k] < start + 1)
    requires forall k :: j <= k < |byStart| ==> x.starts[k] >= start + 1
    requires !exists s :: s in byStart && s.end == start
    ensures Spared(byStart, start, end) <==> j > 0 && x.maxEnd[j - 1] >= end
  {
    if j > 0 && x.maxEnd[j - 1] >= end {
      var k := GreatestIsOne(Ends(byStart)[..j]);
      assert byStart[k] in byStart && x.starts[k] < start + 1;
    } else {
      NotContained(x, byStart, start, end, j);
    }
  }

  lemma SameSpans(a: seq<Span>, b: seq<Span>)
    requires multiset(a) == multiset(b)
    ensures forall s :: s in a <==> s in b
  {
    forall s
      ensures s in a <==> s in b
    {
      assert s in multiset(a) <==> s in multiset(b);
    }
  }

  /** A value is among the ends exactly when some span ends there. */
  lemma SameEnds(ends: seq<int>, spans: seq<Span>, v: int)
    requires multiset(ends) == multiset(Ends(spans))
    ensures v in ends <==> exists s :: s in spans && s.end == v
  {
    assert v in multiset(ends) <==> v in multiset(Ends(spans));
    if v in Ends(spans) {
      var i :| 0 <= i < |spans| && Ends(spans)[i] == v;
      assert spans[i] in spans && spans[i].end == v;
    }
    if s :| s in spans && s.end == v {
      var i :| 0 <= i < |spans| && spans[i] == s;
      assert Ends(spans)[i] == v;
    }
  }

  lemma SameCount(ends: seq<int>, spans: seq<Span>)
    requires multiset(ends) == multiset(Ends(spans))
    ensures |ends| == |spans|
  {
    assert |ends| == |multiset(ends)| == |multiset(Ends(spans))| == |Ends(spans)|;
  }

  lemma NotContained(x: Index, byStart: seq<Span>, start: int, end: int, j: nat)
    requires x.starts == Starts(byStart) && RunningMax(x.maxEnd, Ends(byStart))
    requires j <= |byStart| && forall k :: j <= k < |byStart| ==> x.starts[k] >= start + 1
    requires !(j > 0 && x.maxEnd[j - 1] >= end)
    ensures forall s :: s in byStart ==> !(s.start <= start && end <= s.end)
  {
    forall s | s in byStart
      ensures !(s.start <= start && end <= s.end)
    {
      var k :| 0 <= k < |byStart| && byStart[k] == s;
      if k < j {
        GreatestBounds(Ends(byStart)[..j], k);
      }
    }
  }
}
