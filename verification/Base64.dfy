/** Standard base64 (section 4 of RFC 4648) as a padded encoder and the line-break-skipping decoder. */
module Base64 {
  import opened Numbers
  import opened Options

  type sextet = v: int | 0 <= v < 64

  /** The alphabet. */
  function Symbol(v: sextet): (c: byte)
    ensures InAlphabet(c)
  {
    if v < 26 then 65 + v
    else if v < 52 then 97 + (v - 26)
    else if v < 62 then 48 + (v - 52)
    else if v == 62 then 43
    else 47
  }

  predicate InAlphabet(c: byte) {
    65 <= c <= 90 || 97 <= c <= 122 || 48 <= c <= 57 || c == 43 || c == 47
  }

  function Meaning(c: byte): (v: sextet)
    requires InAlphabet(c)
  {
    if 65 <= c <= 90 then c - 65
    else if 97 <= c <= 122 then c - 97 + 26
    else if 48 <= c <= 57 then c - 48 + 52
    else if c == 43 then 62
    else 63
  }

  /** It is the standard's, in order. */
  lemma AlphabetIs(v: sextet)
    ensures v < 26 ==> Symbol(v) == "ABCDEFGHIJKLMNOPQRSTUVWXYZ"[v] as int
    ensures 26 <= v < 52 ==> Symbol(v) == "abcdefghijklmnopqrstuvwxyz"[v - 26] as int
    ensures 52 <= v ==> Symbol(v) == "0123456789+/"[v - 52] as int
  {
    if v < 26 {
      UpperIs(v);
    } else if v < 52 {
      LowerIs(v - 26);
    } else {
      RestIs(v - 52);
    }
  }

  lemma UpperIs(i: nat)
    requires i < 26
    ensures "ABCDEFGHIJKLMNOPQRSTUVWXYZ"[i] as int == 65 + i
  {
  }

  lemma LowerIs(i: nat)
    requires i < 26
    ensures "abcdefghijklmnopqrstuvwxyz"[i] as int == 97 + i
  {
  }

  lemma RestIs(i: nat)
    requires i < 12
    ensures "0123456789+/"[i] as int == if i < 10 then 48 + i else if i == 10 then 43 else 47
  {
  }

  const PAD: byte := 61

  lemma MeaningOfSymbol(v: sextet)
    ensures Meaning(Symbol(v)) == v && Symbol(v) != PAD
  {
  }

  const LF: byte := 10
  const CR: byte := 13

  /** Four symbols for up to three bytes. */
  function Quad(b: seq<byte>): (q: seq<byte>)
    requires 1 <= |b| <= 3
    ensures |q| == 4
  {
    var b1 := if |b| > 1 then b[1] else 0;
    var b2 := if |b| > 2 then b[2] else 0;
    [ Symbol(b[0] / 4),
      Symbol(b[0] % 4 * 16 + b1 / 16),
      if |b| > 1 then Symbol(b1 % 16 * 4 + b2 / 64) else PAD,
      if |b| > 2 then Symbol(b2 % 64) else PAD ]
  }

  /** Symbols as the digits, base 64, of a number. */
  function Digits(q: seq<byte>): nat
    requires forall i :: 0 <= i < |q| ==> InAlphabet(q[i])
  {
    if q == [] then 0 else Digits(q[..|q| - 1]) * 64 + Meaning(q[|q| - 1])
  }

  /** The four symbols of three bytes are the digits of their 24-bit number. */
  lemma QuadIs(b: seq<byte>)
    requires |b| == 3
    ensures var q := Quad(b); (forall i :: 0 <= i < 4 ==> InAlphabet(q[i])) && Digits(q) == BE(b)
  {
    hide Symbol, Meaning, InAlphabet, Digits, BE;
    MeaningOfSymbol(b[0] / 4);
    MeaningOfSymbol(b[0] % 4 * 16 + b[1] / 16);
    MeaningOfSymbol(b[1] % 16 * 4 + b[2] / 64);
    MeaningOfSymbol(b[2] % 64);
    FourDigits(Quad(b));
    ThreeBytes(b);
  }

  lemma FourDigits(q: seq<byte>)
    requires |q| == 4 && forall i :: 0 <= i < |q| ==> InAlphabet(q[i])
    ensures Digits(q) == ((Meaning(q[0]) as int * 64 + Meaning(q[1])) * 64 + Meaning(q[2])) * 64 + Meaning(q[3])
  {
    hide Meaning, InAlphabet;
    assert q[..3][..2] == q[..2] && q[..2][..1] == q[..1] && q[..1][..0] == [];
    assert Digits(q[..1]) == Meaning(q[0]);
    assert Digits(q[..2]) == Digits(q[..1]) * 64 + Meaning(q[1]);
    assert Digits(q[..3]) == Digits(q[..2]) * 64 + Meaning(q[2]);
  }

  lemma ThreeBytes(b: seq<byte>)
    requires |b| == 3
    ensures BE(b) == (b[0] as int * 256 + b[1]) * 256 + b[2]
  {
    assert b[..2][..1] == b[..1] && b[..1][..0] == [];
    assert BE(b[..1]) == b[0];
    assert BE(b[..2]) == BE(b[..1]) * 256 + b[1];
  }

  /** One byte and two are padded with zero bits; the digits that hold none of the bytes' bits are pad signs. */
  lemma ShortQuadIs(b: seq<byte>)
    requires 1 <= |b| <= 2
    ensures |b| == 2 ==> Quad(b) == Quad(b + [0])[..3] + [PAD]
    ensures |b| == 1 ==> Quad(b) == Quad(b + [0, 0])[..2] + [PAD, PAD]
  {
    hide Symbol;
  }

  function Encode(b: seq<byte>): (s: seq<byte>) {
    if b == [] then []
    else if |b| <= 3 then Quad(b)
    else Quad(b[..3]) + Encode(b[3..])
  }

  function EncodedLen(n: nat): nat {
    (n + 2) / 3 * 4
  }

  lemma {:induction false} EncodeLength(b: seq<byte>)
    ensures |Encode(b)| == EncodedLen(|b|)
  {
    hide Quad;
    if |b| <= 3 {
    } else {
      EncodeLength(b[3..]);
    }
  }

  /** Splitting at a multiple of three changes nothing. */
  lemma {:induction false} EncodeSplit(a: seq<byte>, b: seq<byte>)
    requires |a| % 3 == 0
    ensures Encode(a + b) == Encode(a) + Encode(b)
  {
    hide Quad;
    if a == [] {
      assert a + b == b;
    } else if |a| == 3 {
      assert (a + b)[..3] == a && (a + b)[3..] == b;
      if b == [] {
        assert a + b == a;
      }
    } else {
      EncodeSplit(a[3..], b);
      assert (a + b)[..3] == a[..3] && (a + b)[3..] == a[3..] + b;
    }
  }

  /** Nothing but the alphabet and the pad sign. */
  predicate Plain(c: byte) {
    InAlphabet(c) || c == PAD
  }

  lemma {:induction false} EncodePlain(b: seq<byte>)
    ensures forall i :: 0 <= i < |Encode(b)| ==> Plain(Encode(b)[i])
  {
    if |b| <= 3 {
    } else {
      EncodePlain(b[3..]);
    }
  }

  // Decoding.

  function Stripped(s: seq<byte>): (r: seq<byte>) {
    if s == [] then []
    else if s[0] == LF || s[0] == CR then Stripped(s[1..])
    else [s[0]] + Stripped(s[1..])
  }

  /** Two symbols' worth of a byte, three times over. */
  function Join(q: seq<byte>): (b: seq<byte>)
    requires |q| == 4 && InAlphabet(q[0]) && InAlphabet(q[1])
    requires (InAlphabet(q[2]) && InAlphabet(q[3])) || (InAlphabet(q[2]) && q[3] == PAD) || (q[2] == PAD && q[3] == PAD)
  {
    var x, y := Meaning(q[0]), Meaning(q[1]);
    [x * 4 + y / 16] +
    if q[2] == PAD then [] else
      var z := Meaning(q[2]);
      [y % 16 * 16 + z / 4] +
      if q[3] == PAD then [] else [z % 4 * 64 + Meaning(q[3])]
  }

  predicate FullQuad(q: seq<byte>) {
    |q| == 4 && InAlphabet(q[0]) && InAlphabet(q[1]) && InAlphabet(q[2]) && InAlphabet(q[3])
  }

  predicate LastQuad(q: seq<byte>) {
    |q| == 4 && InAlphabet(q[0]) && InAlphabet(q[1])
    && ((InAlphabet(q[2]) && InAlphabet(q[3])) || (InAlphabet(q[2]) && q[3] == PAD) || (q[2] == PAD && q[3] == PAD))
  }

  /** The quanta of an input without line breaks: only the last may be padded. */
  function Quanta(s: seq<byte>): (r: Option<seq<byte>>) {
    if s == [] then Some([])
    else if |s| < 4 then None
    else if |s| == 4 then (if LastQuad(s) then Some(Join(s)) else None)
    else if !FullQuad(s[..4]) then None
    else
      var rest := Quanta(s[4..]);
      if rest.None? then None else Some(Join(s[..4]) + rest.value)
  }

  function Decode(s: seq<byte>): (r: Option<seq<byte>>) {
    Quanta(Stripped(s))
  }

  lemma QuadJoin(b: seq<byte>)
    requires 1 <= |b| <= 3
    ensures LastQuad(Quad(b)) && Join(Quad(b)) == b
    ensures |b| == 3 ==> FullQuad(Quad(b))
  {
    hide Meaning, InAlphabet, Symbol;
    var b1 := if |b| > 1 then b[1] else 0;
    var b2 := if |b| > 2 then b[2] else 0;
    MeaningOfSymbol(b[0] / 4);
    MeaningOfSymbol(b[0] % 4 * 16 + b1 / 16);
    MeaningOfSymbol(b1 % 16 * 4 + b2 / 64);
    MeaningOfSymbol(b2 % 64);
    Sextets(b[0], b1, b2);
  }

  /** Three bytes from four sextets. */
  lemma Sextets(a: byte, b: byte, c: byte)
    ensures a / 4 * 4 + (a % 4 * 16 + b / 16) / 16 == a
    ensures (a % 4 * 16 + b / 16) % 16 * 16 + (b % 16 * 4 + c / 64) / 4 == b
    ensures (b % 16 * 4 + c / 64) % 4 * 64 + c % 64 == c
  {
    assert (a % 4 * 16 + b / 16) / 16 == a % 4 && (a % 4 * 16 + b / 16) % 16 == b / 16;
    assert (b % 16 * 4 + c / 64) / 4 == b % 16 && (b % 16 * 4 + c / 64) % 4 == c / 64;
  }

  lemma {:induction false} QuantaEncode(b: seq<byte>)
    ensures Quanta(Encode(b)) == Some(b)
  {
    if b == [] {
    } else if |b| <= 3 {
      QuadJoin(b);
    } else {
      QuadJoin(b[..3]);
      QuantaEncode(b[3..]);
      EncodeLength(b[3..]);
      var s := Encode(b);
      assert s[..4] == Quad(b[..3]) && s[4..] == Encode(b[3..]);
      assert b == b[..3] + b[3..];
    }
  }

  lemma {:induction false} StrippedPlain(s: seq<byte>)
    requires forall i :: 0 <= i < |s| ==> Plain(s[i])
    ensures Stripped(s) == s
  {
    if s == [] {
    } else {
      StrippedPlain(s[1..]);
    }
  }

  lemma {:induction false} StrippedJoin(a: seq<byte>, b: seq<byte>)
    ensures Stripped(a + b) == Stripped(a) + Stripped(b)
  {
    if a == [] {
      assert a + b == b;
    } else {
      StrippedJoin(a[1..], b);
      assert (a + b)[0] == a[0] && (a + b)[1..] == a[1..] + b;
      var x, y := Stripped(a[1..]), Stripped(b);
      assert [a[0]] + (x + y) == ([a[0]] + x) + y;
    }
  }

  /** Whole quanta of the alphabet, with one pad sign at the very end, two, or none. */
  predicate WellFormed(s: seq<byte>) {
    && |s| % 4 == 0
    && forall i :: 0 <= i < |s| ==>
         InAlphabet(s[i]) || (s[i] == PAD && i >= |s| - 2 && s[|s| - 1] == PAD)
  }

  /** The decoder accepts exactly those. */
  lemma {:induction false} QuantaExactly(s: seq<byte>)
    ensures Quanta(s).Some? <==> WellFormed(s)
    decreases |s|
  {
    hide InAlphabet, Join;
    if |s| < 4 {
    } else if |s| == 4 {
      OneQuad(s);
    } else {
      QuantaExactly(s[4..]);
      FirstQuad(s);
    }
  }

  lemma OneQuad(s: seq<byte>)
    requires |s| == 4
    ensures LastQuad(s) <==> WellFormed(s)
  {
    PadIsNoSymbol();
    if WellFormed(s) {
      assert InAlphabet(s[0]) && InAlphabet(s[1]) && (InAlphabet(s[2]) || s[2] == PAD) && (InAlphabet(s[3]) || s[3] == PAD);
    }
  }

  lemma FirstQuad(s: seq<byte>)
    requires |s| > 4
    ensures WellFormed(s) <==> FullQuad(s[..4]) && WellFormed(s[4..])
  {
    hide InAlphabet;
    assert (|s| - 4) % 4 == |s| % 4;
    if FullQuad(s[..4]) && WellFormed(s[4..]) {
      forall i | 0 <= i < |s|
        ensures InAlphabet(s[i]) || (s[i] == PAD && i >= |s| - 2 && s[|s| - 1] == PAD)
      {
        if i < 4 {
          assert s[..4][i] == s[i];
        } else {
          assert s[4..][i - 4] == s[i];
        }
      }
    }
    if WellFormed(s) {
      assert |s| >= 8;
      forall i | 0 <= i < |s| - 4
        ensures InAlphabet(s[4..][i]) || (s[4..][i] == PAD && i >= |s| - 6 && s[|s| - 1] == PAD)
      {
        assert s[4..][i] == s[i + 4];
      }
    }
  }

  lemma PadIsNoSymbol()
    ensures !InAlphabet(PAD)
  {
  }

  /** And what it gives encodes as the input again, the last quantum aside: its unused bits are not looked at. */
  lemma {:induction false} QuantaBack(s: seq<byte>)
    requires Quanta(s).Some?
    ensures var b := Quanta(s).value;
      && |Encode(b)| == |s|
      && (forall i :: 0 <= i < |s| - 4 ==> Encode(b)[i] == s[i])
      && (PAD !in s ==> Encode(b) == s)
    decreases |s|
  {
    hide InAlphabet, Join, Quad;
    if s == [] {
    } else if |s| == 4 {
      LastBack(s);
    } else {
      var first, rest := s[..4], s[4..];
      FullBack(first);
      QuantaBack(rest);
      var b := Join(first) + Quanta(rest).value;
      assert b == Quanta(s).value;
      EncodeSplit(Join(first), Quanta(rest).value);
      assert Encode(Join(first)) == first;
      assert s == first + rest;
    }
  }

  lemma FullBack(q: seq<byte>)
    requires FullQuad(q)
    ensures |Join(q)| == 3 && Encode(Join(q)) == q
  {
    hide InAlphabet, Symbol, Meaning;
    PadIsNoSymbol();
    var x, y, z, w := Meaning(q[0]), Meaning(q[1]), Meaning(q[2]), Meaning(q[3]);
    SymbolOfMeaning(q[0]);
    SymbolOfMeaning(q[1]);
    SymbolOfMeaning(q[2]);
    SymbolOfMeaning(q[3]);
    Bytes(x, y, z, w);
  }

  lemma SymbolOfMeaning(c: byte)
    requires InAlphabet(c)
    ensures Symbol(Meaning(c)) == c
  {
  }

  /** Four sextets from three bytes. */
  lemma Bytes(x: sextet, y: sextet, z: sextet, w: sextet)
    ensures (x as int * 4 + y / 16) / 4 == x && (x as int * 4 + y / 16) % 4 * 16 + (y % 16 * 16 + z / 4) / 16 == y
    ensures (y as int % 16 * 16 + z / 4) % 16 * 4 + (z % 4 * 64 + w) / 64 == z && (z as int % 4 * 64 + w) % 64 == w
  {
  }

  lemma LastBack(q: seq<byte>)
    requires LastQuad(q)
    ensures |Encode(Join(q))| == 4 && (PAD !in q ==> Encode(Join(q)) == q)
  {
    hide InAlphabet;
    if PAD !in q {
      FullBack(q);
    } else {
      JoinLength(q);
      EncodeLength(Join(q));
    }
  }

  lemma JoinLength(q: seq<byte>)
    requires LastQuad(q)
    ensures 1 <= |Join(q)| <= 3
  {
  }
}
