/** The SSH wire encoding (section 5 of RFC 4251): a writer over a fixed buffer and a reading cursor. */
module SshWire {
  import opened Numbers
  import opened Options

  const U32_LIMIT := 0x1_0000_0000

  function U32(v: nat): (b: seq<byte>)
    ensures |b| == 4
  {
    ToBE(v, 4)
  }

  /** A length-prefixed string. */
  function Str(s: seq<byte>): (b: seq<byte>)
    ensures |b| == 4 + |s|
  {
    U32(|s|) + s
  }

  lemma U32Bound()
    ensures Pow(256, 4) == U32_LIMIT
  {
    PowAdd(256, 2, 2);
    PowAdd(256, 1, 1);
    assert Pow(256, 1) == 256;
  }

  lemma U32Value(v: nat)
    requires v < U32_LIMIT
    ensures BE(U32(v)) == v
  {
    ToBEValue(v, 4);
    U32Bound();
  }

  /** A word read back: what was cut off the front encodes it. */
  lemma U32Exact(b: seq<byte>)
    requires |b| >= 4
    ensures BE(b[..4]) < U32_LIMIT && b == U32(BE(b[..4])) + b[4..]
  {
    BEBound(b[..4]);
    U32Bound();
    ToBEOfBE(b[..4]);
    assert b == b[..4] + b[4..];
  }

  datatype Cut = Cut(field: seq<byte>, rest: seq<byte>)

  /** One string off the front. */
  function ReadStr(b: seq<byte>): (r: Option<Cut>) {
    if |b| < 4 || BE(b[..4]) > |b| - 4 then None
    else Some(Cut(b[4..4 + BE(b[..4])], b[4 + BE(b[..4])..]))
  }

  lemma Prefixed(p: seq<byte>, s: seq<byte>, rest: seq<byte>)
    requires |p| == 4
    ensures var b := p + s + rest; b[..4] == p && b[4..4 + |s|] == s && b[4 + |s|..] == rest
  {
  }

  /** Reading accepts exactly what writing produces. */
  lemma ReadStrExact(b: seq<byte>, s: seq<byte>, rest: seq<byte>)
    requires |s| < U32_LIMIT
    ensures ReadStr(b) == Some(Cut(s, rest)) <==> b == Str(s) + rest
  {
    hide U32;
    if b == Str(s) + rest {
      Prefixed(U32(|s|), s, rest);
      U32Value(|s|);
    }
    if ReadStr(b) == Some(Cut(s, rest)) {
      U32Exact(b);
      assert b == U32(|s|) + (s + rest);
    }
  }

  /** And whatever it cuts off is short enough for its prefix. */
  lemma ReadStrFits(b: seq<byte>)
    requires ReadStr(b).Some?
    ensures |ReadStr(b).value.field| < U32_LIMIT
    ensures b == Str(ReadStr(b).value.field) + ReadStr(b).value.rest
  {
    U32Exact(b);
    var c := ReadStr(b).value;
    ReadStrExact(b, c.field, c.rest);
  }

  class Reader {
    var b: seq<byte>

    constructor (data: seq<byte>)
      ensures b == data
    {
      b := data;
    }

    method Uint32() returns (v: nat, ok: bool)
      modifies this
      ensures ok <==> |old(b)| >= 4
      ensures ok ==> v < U32_LIMIT && old(b) == U32(v) + b
      ensures !ok ==> b == old(b)
    {
      if |b| < 4 {
        return 0, false;
      }
      v := BE(b[..4]);
      U32Exact(b);
      b := b[4..];
      ok := true;
    }

    method NextStr() returns (s: seq<byte>, ok: bool)
      modifies this
      ensures ok <==> ReadStr(old(b)).Some?
      ensures ok ==> ReadStr(old(b)) == Some(Cut(s, b))
    {
      ghost var was := b;
      var n;
      n, ok := Uint32();
      if !ok || n > |b| {
        if ok {
          assert was[..4] == U32(n);
          U32Value(n);
        }
        return [], false;
      }
      assert was[..4] == U32(n);
      U32Value(n);
      s := b[..n];
      b := b[n..];
      assert was[4..4 + n] == s && was[4 + n..] == b;
    }
  }

  class Writer {
    const b: array<byte>
    var n: nat

    ghost predicate Valid()
      reads this
    {
      n <= b.Length
    }

    constructor (buffer: array<byte>)
      ensures b == buffer && n == 0 && Valid()
    {
      b := buffer;
      n := 0;
    }

    /** Copies what fits, as the source's copy does. */
    method Bytes(p: seq<byte>)
      requires Valid()
      modifies this`n, b
      ensures Valid() && n == old(n) + if |p| < b.Length - old(n) then |p| else b.Length - old(n)
      ensures b[..n] == old(b[..n]) + p[..n - old(n)]
      ensures old(n) + |p| <= b.Length ==> n == old(n) + |p| && b[..n] == old(b[..n]) + p
    {
      var k := if |p| < b.Length - n then |p| else b.Length - n;
      var at := n;
      for i := 0 to k
        invariant n == at
        invariant forall j :: 0 <= j < at ==> b[j] == old(b[j])
        invariant forall j :: at <= j < at + i ==> b[j] == p[j - at]
      {
        b[at + i] := p[i];
      }
      n := at + k;
    }

    method Uint32(v: nat)
      requires Valid() && n + 4 <= b.Length
      modifies this`n, b
      ensures Valid() && b[..n] == old(b[..n]) + U32(v)
    {
      Bytes(U32(v));
    }

    method WriteStr(p: seq<byte>)
      requires Valid() && n + 4 + |p| <= b.Length
      modifies this`n, b
      ensures Valid() && b[..n] == old(b[..n]) + Str(p)
    {
      ghost var was := b[..n];
      Uint32(|p|);
      Bytes(p);
      assert was + U32(|p|) + p == was + Str(p);
    }
  }
}
