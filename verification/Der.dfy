/** DER lengths and INTEGERs: the sizes computed up front, the writer, and a strict decoder to hold them against. */
module Der {
  import opened Numbers
  import opened Options

  /** A length this writer is ever asked for: a non-negative int. */
  const INT_LIMIT: nat := 0x8000_0000_0000_0000

  function Octets(n: nat): (k: nat)
    ensures n > 0 ==> k > 0
  {
    if n == 0 then 0 else 1 + Octets(n / 256)
  }

  /** The count of the source: shift right until nothing is left. */
  method CountOctets(n: nat) returns (k: nat)
    ensures k == Octets(n)
  {
    k := 0;
    var v := n;
    while v != 0
      invariant k + Octets(v) == Octets(n)
    {
      v := v / 256;
      k := k + 1;
    }
  }

  /** k octets are enough, and no fewer are. */
  lemma {:induction false} OctetsExact(n: nat)
    ensures n < Pow(256, Octets(n))
    ensures n > 0 ==> Pow(256, Octets(n) - 1) <= n
  {
    if n == 0 {
    } else {
      OctetsExact(n / 256);
      var p := Pow(256, Octets(n / 256));
      assert Pow(256, Octets(n)) == 256 * p;
      if n / 256 > 0 {
        assert p == 256 * Pow(256, Octets(n / 256) - 1);
      }
    }
  }

  lemma {:induction false} OctetsBound(n: nat, k: nat)
    requires n < Pow(256, k)
    ensures Octets(n) <= k
  {
    if n == 0 {
    } else {
      assert k > 0;
      assert Pow(256, k) == 256 * Pow(256, k - 1);
      OctetsBound(n / 256, k - 1);
    }
  }

  lemma OctetsOfInt(n: nat)
    requires n < INT_LIMIT
    ensures Octets(n) <= 8
  {
    PowAdd(256, 1, 1);
    assert Pow(256, 1) == 256;
    PowAdd(256, 2, 2);
    PowAdd(256, 4, 4);
    OctetsBound(n, 8);
  }

  // Encoding.

  function LengthLen(n: nat): nat {
    if n < 0x80 then 1 else 1 + Octets(n)
  }

  function Length(n: nat): (b: seq<byte>)
    requires n < INT_LIMIT
    ensures |b| == LengthLen(n)
  {
    if n < 0x80 then [n] else
      OctetsOfInt(n);
      [0x80 + Octets(n)] + ToBE(n, Octets(n))
  }

  /** The content octets of a magnitude without leading zeros; the empty one is zero. */
  function Content(raw: seq<byte>): (c: seq<byte>)
    ensures |c| == ContentLen(raw)
  {
    if raw == [] then [0] else if raw[0] >= 0x80 then [0] + raw else raw
  }

  function ContentLen(raw: seq<byte>): (n: nat)
    ensures 0 < n <= |raw| + 1
  {
    if raw == [] then 1 else if raw[0] >= 0x80 then |raw| + 1 else |raw|
  }

  function EncodedLen(raw: seq<byte>): nat {
    1 + LengthLen(ContentLen(raw)) + ContentLen(raw)
  }

  function Integer(raw: seq<byte>): (b: seq<byte>)
    requires |raw| + 1 < INT_LIMIT
    ensures |b| == EncodedLen(raw)
  {
    [0x02] + Length(ContentLen(raw)) + Content(raw)
  }

  ghost predicate Short(fields: seq<seq<byte>>) {
    forall i :: 0 <= i < |fields| ==> |fields[i]| + 1 < INT_LIMIT
  }

  ghost function Integers(fields: seq<seq<byte>>): seq<byte>
    requires Short(fields)
  {
    if fields == [] then [] else Integers(fields[..|fields| - 1]) + Integer(fields[|fields| - 1])
  }

  function SumLen(fields: seq<seq<byte>>): nat {
    if fields == [] then 0 else SumLen(fields[..|fields| - 1]) + EncodedLen(fields[|fields| - 1])
  }

  lemma {:induction false} IntegersLength(fields: seq<seq<byte>>)
    requires Short(fields)
    ensures |Integers(fields)| == SumLen(fields)
  {
    if fields == [] {
    } else {
      IntegersLength(fields[..|fields| - 1]);
    }
  }

  /** The short form is the length itself; the long form is the count of octets, and the length in them, the first of them
      not zero. */
  lemma LengthForm(n: nat)
    requires n < INT_LIMIT
    ensures n < 0x80 ==> Length(n) == [n]
    ensures n >= 0x80 ==>
      var b := Length(n); |b| >= 2 && b[0] == 0x80 + (|b| - 1) && BE(b[1..]) == n && b[1] != 0
  {
    hide Octets, ToBE, BE;
    if n >= 0x80 {
      var k := Octets(n);
      OctetsOfInt(n);
      OctetsExact(n);
      ToBETop(n, k);
      assert Length(n)[1..] == ToBE(n, k);
    }
  }

  /** The tags are those of INTEGER and SEQUENCE, and behind the length nothing follows but the contents. */
  lemma TagForm(raw: seq<byte>, fields: seq<seq<byte>>)
    requires |raw| + 1 < INT_LIMIT && Stripped(raw) && Short(fields) && SumLen(fields) < INT_LIMIT
    ensures var b, n := Integer(raw), ContentLen(raw);
      && b[0] == 2 && |b| == 1 + |Length(n)| + n && b[1..1 + |Length(n)|] == Length(n)
      && b[1 + |Length(n)|] < 0x80 && BE(b[1 + |Length(n)|..]) == BE(raw)
    ensures var b, n := Sequence(fields), SumLen(fields);
      b[0] == 48 && |b| == 1 + |Length(n)| + n && b[1..1 + |Length(n)|] == Length(n) && b[1 + |Length(n)|..] == Integers(fields)
  {
    hide Length, BE, Content, LengthLen;
    ContentValue(raw);
    IntegersLength(fields);
    var b := Integer(raw);
    assert b[1 + |Length(ContentLen(raw))|..] == Content(raw);
  }

  // Decoding, as the standard defines it.

  datatype Part<T> = Part(value: T, rest: seq<byte>)

  /** Definite lengths, in the fewest octets that will do. */
  function ReadLength(b: seq<byte>): (r: Option<Part<nat>>) {
    if b == [] then None
    else if b[0] < 0x80 then Some(Part(b[0], b[1..]))
    else
      var k := b[0] - 0x80;
      if k == 0 || |b| < 1 + k || b[1] == 0 then None
      else
        var n := BE(b[1..1 + k]);
        if n < 0x80 then None else Some(Part(n, b[1 + k..]))
  }

  /** A non-negative INTEGER in the fewest octets. */
  function ReadInteger(b: seq<byte>): (r: Option<Part<nat>>) {
    if b == [] || b[0] != 0x02 then None
    else
      var n := ReadLength(b[1..]);
      if n.None? || n.value.value == 0 || n.value.value > |n.value.rest| then None
      else
        var c := n.value.rest[..n.value.value];
        if c[0] >= 0x80 || (|c| > 1 && c[0] == 0 && c[1] < 0x80) then None
        else Some(Part(BE(c), n.value.rest[n.value.value..]))
  }

  function ReadIntegers(b: seq<byte>, k: nat): (r: Option<seq<nat>>) {
    if k == 0 then (if b == [] then Some([]) else None)
    else
      var x := ReadInteger(b);
      if x.None? then None
      else
        var rest := ReadIntegers(x.value.rest, k - 1);
        if rest.None? then None else Some([x.value.value] + rest.value)
  }

  /** A SEQUENCE of k non-negative INTEGERs and nothing else. */
  function ReadSequence(b: seq<byte>, k: nat): (r: Option<seq<nat>>) {
    if b == [] || b[0] != 0x30 then None
    else
      var n := ReadLength(b[1..]);
      if n.None? || n.value.value != |n.value.rest| then None else ReadIntegers(n.value.rest, k)
  }

  lemma ToBETop(n: nat, k: nat)
    requires k > 0 && Pow(256, k - 1) <= n < Pow(256, k)
    ensures BE(ToBE(n, k)) == n && ToBE(n, k)[0] != 0
  {
    ToBEValue(n, k);
    Remainder(n, Pow(256, k), 0, n);
    var b := ToBE(n, k);
    BEFirst(b);
    BEBound(b[1..]);
  }

  lemma LengthRead(n: nat, rest: seq<byte>)
    requires n < INT_LIMIT
    ensures ReadLength(Length(n) + rest) == Some(Part(n, rest))
  {
    hide Octets, ToBE, BE;
    var b := Length(n) + rest;
    if n >= 0x80 {
      var k := Octets(n);
      OctetsOfInt(n);
      OctetsExact(n);
      ToBETop(n, k);
      assert b[1..1 + k] == ToBE(n, k) && b[1 + k..] == rest;
      assert b[1] == ToBE(n, k)[0];
    }
  }

  predicate Stripped(raw: seq<byte>) {
    raw == [] || raw[0] != 0
  }

  lemma ContentValue(raw: seq<byte>)
    requires Stripped(raw)
    ensures BE(Content(raw)) == BE(raw)
    ensures
      var c := Content(raw);
      |c| == ContentLen(raw) > 0 && c[0] < 0x80 && !(|c| > 1 && c[0] == 0 && c[1] < 0x80)
  {
    if raw == [] {
      assert Content(raw)[..0] == [];
    } else if raw[0] >= 0x80 {
      BEFirst([0] + raw);
      assert ([0] + raw)[1..] == raw;
    }
  }

  lemma IntegerShape(raw: seq<byte>, rest: seq<byte>)
    requires |raw| + 1 < INT_LIMIT
    ensures
      var b := Integer(raw) + rest;
      b != [] && b[0] == 0x02 && b[1..] == Length(ContentLen(raw)) + (Content(raw) + rest)
  {
    hide Length, Content, ContentLen, LengthLen;
  }

  lemma ReadsContent(b: seq<byte>, c: seq<byte>, rest: seq<byte>)
    requires b != [] && b[0] == 0x02 && ReadLength(b[1..]) == Some(Part(|c|, c + rest))
    requires |c| > 0 && c[0] < 0x80 && !(|c| > 1 && c[0] == 0 && c[1] < 0x80)
    ensures ReadInteger(b) == Some(Part(BE(c), rest))
  {
    hide ReadLength, BE;
    assert (c + rest)[..|c|] == c && (c + rest)[|c|..] == rest;
  }

  /** One INTEGER written is one INTEGER read, sign octet and all. */
  lemma IntegerRead(raw: seq<byte>, rest: seq<byte>)
    requires Stripped(raw) && |raw| + 1 < INT_LIMIT
    ensures ReadInteger(Integer(raw) + rest) == Some(Part(BE(raw), rest))
  {
    hide Length, BE, ReadLength, ReadInteger, Content, ContentLen, LengthLen, Integer, EncodedLen;
    ContentValue(raw);
    IntegerShape(raw, rest);
    var c := Content(raw);
    LengthRead(|c|, c + rest);
    ReadsContent(Integer(raw) + rest, c, rest);
  }

  function Values(fields: seq<seq<byte>>): (v: seq<nat>)
    ensures |v| == |fields| && forall i :: 0 <= i < |v| ==> v[i] == BE(fields[i])
  {
    seq(|fields|, i requires 0 <= i < |fields| => BE(fields[i]))
  }

  lemma IntegersLast(fields: seq<seq<byte>>)
    requires fields != [] && Short(fields)
    ensures Integers(fields) == Integers(fields[..|fields| - 1]) + Integer(fields[|fields| - 1])
  {
  }

  lemma {:induction false} IntegersSplit(fields: seq<seq<byte>>)
    requires fields != [] && Short(fields)
    ensures Integers(fields) == Integer(fields[0]) + Integers(fields[1..])
  {
    hide Integer, Integers;
    IntegersLast(fields);
    NoIntegers();
    if |fields| == 1 {
      assert fields[..0] == [] && fields[1..] == [];
      assert [] + Integer(fields[0]) == Integer(fields[0]) + [];
    } else {
      var n := |fields| - 1;
      IntegersSplit(fields[..n]);
      IntegersLast(fields[1..]);
      Slices(fields, n);
      Reassociate(Integer(fields[0]), Integers(fields[1..n]), Integer(fields[n]));
    }
  }

  lemma Slices(fields: seq<seq<byte>>, n: nat)
    requires 0 < n == |fields| - 1
    ensures fields[..n][0] == fields[0] && fields[..n][1..] == fields[1..n]
    ensures fields[1..][..n - 1] == fields[1..n] && fields[1..][n - 1] == fields[n]
  {
  }

  lemma Reassociate(a: seq<byte>, b: seq<byte>, c: seq<byte>)
    ensures a + b + c == a + (b + c)
  {
  }

  lemma {:induction false} IntegersRead(fields: seq<seq<byte>>)
    requires Short(fields) && forall i :: 0 <= i < |fields| ==> Stripped(fields[i])
    ensures ReadIntegers(Integers(fields), |fields|) == Some(Values(fields))
  {
    hide Integer, Integers, ReadInteger, ReadIntegers, Values, BE;
    if fields == [] {
      NoIntegers();
    } else {
      IntegersSplit(fields);
      IntegerRead(fields[0], Integers(fields[1..]));
      IntegersRead(fields[1..]);
      ReadNext(Integers(fields), |fields|);
      ValuesSplit(fields);
    }
  }

  lemma NoIntegers()
    ensures Integers([]) == [] && ReadIntegers([], 0) == Some([]) && Values([]) == []
  {
  }

  lemma ReadNext(b: seq<byte>, k: nat)
    requires k > 0 && ReadInteger(b).Some? && ReadIntegers(ReadInteger(b).value.rest, k - 1).Some?
    ensures ReadIntegers(b, k) == Some([ReadInteger(b).value.value] + ReadIntegers(ReadInteger(b).value.rest, k - 1).value)
  {
    hide ReadInteger;
  }

  lemma ValuesSplit(fields: seq<seq<byte>>)
    requires fields != []
    ensures Values(fields) == [BE(fields[0])] + Values(fields[1..])
  {
    hide BE;
  }

  ghost function Sequence(fields: seq<seq<byte>>): seq<byte>
    requires Short(fields) && SumLen(fields) < INT_LIMIT
  {
    [0x30] + Length(SumLen(fields)) + Integers(fields)
  }

  lemma AfterTag(a: seq<byte>, b: seq<byte>)
    ensures var s := [0x30] + a + b; |s| > 0 && s[0] == 0x30 && s[1..] == a + b
  {
  }

  /** The structure decodes to the values of its fields. */
  lemma SequenceRead(fields: seq<seq<byte>>)
    requires Short(fields) && (forall i :: 0 <= i < |fields| ==> Stripped(fields[i])) && SumLen(fields) < INT_LIMIT
    ensures ReadSequence(Sequence(fields), |fields|) == Some(Values(fields))
  {
    hide Integers, ReadIntegers, Length, ReadLength, SumLen, Values, LengthLen, BE, Short;
    var b := Sequence(fields);
    IntegersLength(fields);
    AfterTag(Length(SumLen(fields)), Integers(fields));
    LengthRead(SumLen(fields), Integers(fields));
    IntegersRead(fields);
  }

  // The writer.

  lemma Grown(was: seq<byte>, octets: seq<byte>, j: nat)
    requires j < |octets|
    ensures was + octets[..j] + [octets[j]] == was + octets[..j + 1]
  {
  }

  class Writer {
    const b: array<byte>
    var off: nat

    ghost predicate Valid()
      reads this
    {
      off <= b.Length
    }

    constructor (buffer: array<byte>)
      ensures b == buffer && off == 0 && Valid()
    {
      b := buffer;
      off := 0;
    }

    method PutByte(v: byte)
      requires Valid() && off < b.Length
      modifies this`off, b
      ensures Valid() && off == old(off) + 1 && b[..off] == old(b[..off]) + [v]
    {
      ghost var was := b[..off];
      b[off] := v;
      assert b[..off] == was;
      off := off + 1;
    }

    /** In exactly LengthLen(n) bytes, most significant octet first. */
    method PutLength(n: nat)
      requires Valid() && n < INT_LIMIT && off + LengthLen(n) <= b.Length
      modifies this`off, b
      ensures Valid() && off == old(off) + LengthLen(n) && b[..off] == old(b[..off]) + Length(n)
    {
      if n < 0x80 {
        PutByte(n);
        return;
      }
      hide Octets, ToBE;
      OctetsOfInt(n);
      ghost var was := b[..off];
      var k := CountOctets(n);
      PutByte(0x80 + k);
      PutOctets(n, k);
      assert was + [0x80 + k] + ToBE(n, k) == was + ([0x80 + k] + ToBE(n, k));
    }

    /** The lowest k octets of n, most significant first. */
    method PutOctets(n: nat, k: nat)
      requires Valid() && off + k <= b.Length
      modifies this`off, b
      ensures Valid() && off == old(off) + k && b[..off] == old(b[..off]) + ToBE(n, k)
    {
      hide ToBE;
      ghost var was, at, octets := b[..off], off, ToBE(n, k);
      assert was + octets[..0] == was;
      var i := k;
      while i > 0
        invariant 0 <= i <= k && off == at + (k - i) && Valid()
        invariant b[..off] == was + octets[..k - i]
      {
        i := i - 1;
        ToBEByte(n, k, i);
        PutByte(ShiftedByte(n, i));
        Grown(was, octets, k - 1 - i);
      }
      assert octets[..k] == octets;
    }

    method PutInteger(raw: seq<byte>)
      requires Valid() && |raw| + 1 < INT_LIMIT && off + EncodedLen(raw) <= b.Length
      modifies this`off, b
      ensures Valid() && off == old(off) + EncodedLen(raw) && b[..off] == old(b[..off]) + Integer(raw)
    {
      hide Length, LengthLen, Content, ContentLen;
      ghost var was := b[..off];
      PutByte(0x02);
      PutLength(ContentLen(raw));
      PutContent(raw);
      assert was + [0x02] + Length(ContentLen(raw)) + Content(raw) == was + Integer(raw);
    }

    method PutContent(raw: seq<byte>)
      requires Valid() && off + ContentLen(raw) <= b.Length
      modifies this`off, b
      ensures Valid() && off == old(off) + ContentLen(raw) && b[..off] == old(b[..off]) + Content(raw)
    {
      ghost var was := b[..off];
      if raw == [] {
        PutByte(0);
        return;
      }
      if raw[0] >= 0x80 {
        PutByte(0);
      }
      PutRaw(raw);
      assert b[..off] == was + Content(raw);
    }

    method PutRaw(raw: seq<byte>)
      requires Valid() && off + |raw| <= b.Length
      modifies this`off, b
      ensures Valid() && off == old(off) + |raw| && b[..off] == old(b[..off]) + raw
    {
      var at := off;
      for i := 0 to |raw|
        invariant off == at
        invariant forall j :: 0 <= j < at ==> b[j] == old(b[j])
        invariant forall j :: at <= j < at + i ==> b[j] == raw[j - at]
      {
        b[at + i] := raw[i];
      }
      off := at + |raw|;
    }
  }

  /** The low byte of n shifted right by 8 i. */
  function ShiftedByte(n: nat, i: nat): byte {
    if i == 0 then n % 256 else ShiftedByte(n / 256, i - 1)
  }

  lemma {:induction false} ToBEByte(n: nat, k: nat, i: nat)
    requires i < k
    ensures ToBE(n, k)[k - 1 - i] == ShiftedByte(n, i)
  {
    if i == 0 {
    } else {
      ToBEByte(n / 256, k - 1, i - 1);
    }
  }
}
