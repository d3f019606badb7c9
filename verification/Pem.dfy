/** PEM armour: the exact-size encoder, the block locator and the body decoder. */
module Pem {
  import opened Numbers
  import opened Options
  import Base64

  const DASH: byte := 45
  const COLON: byte := 58
  const LF: byte := 10
  const CR: byte := 13
  const LINE := 48

  /** "-----BEGIN " */
  function Begin(): (s: seq<byte>)
    ensures |s| == 11 && s[0] == DASH
  {
    [45, 45, 45, 45, 45, 66, 69, 71, 73, 78, 32]
  }

  /** "-----END " */
  function End(): (s: seq<byte>)
    ensures |s| == 9 && s[0] == DASH
  {
    [45, 45, 45, 45, 45, 69, 78, 68, 32]
  }

  /** "-----" */
  function Dashes(): (s: seq<byte>)
    ensures |s| == 5 && s[0] == DASH
  {
    [45, 45, 45, 45, 45]
  }

  lemma Spelling()
    ensures Begin() == Ascii("-----BEGIN ") && End() == Ascii("-----END ") && Dashes() == Ascii("-----")
  {
  }

  // Writing.

  /** The body: 48 bytes to a line of 64 symbols. */
  function Lines(src: seq<byte>): (s: seq<byte>)
    decreases |src|
  {
    if src == [] then []
    else if |src| <= LINE then Base64.Encode(src) + [LF]
    else Base64.Encode(src[..LINE]) + [LF] + Lines(src[LINE..])
  }

  /** A boundary line. */
  function Marker(lead: seq<byte>, typ: seq<byte>): (s: seq<byte>)
    ensures |s| == |lead| + |typ| + 6
  {
    lead + typ + Dashes() + [LF]
  }

  function Armour(typ: seq<byte>, src: seq<byte>): seq<byte> {
    Marker(Begin(), typ) + Lines(src) + Marker(End(), typ)
  }

  function Len(typ: nat, n: nat): nat {
    var enc := Base64.EncodedLen(n);
    11 + typ + 5 + 1 + enc + (enc + 63) / 64 + 9 + typ + 5 + 1
  }

  lemma {:induction false} LinesLength(src: seq<byte>)
    ensures var enc := Base64.EncodedLen(|src|); |Lines(src)| == enc + (enc + 63) / 64
  {
    hide Base64.Encode, Base64.EncodedLen;
    LineCount(|src|);
    if |src| == 0 {
    } else if |src| <= LINE {
      Base64.EncodeLength(src);
    } else {
      Base64.EncodeLength(src[..LINE]);
      LinesLength(src[LINE..]);
    }
  }

  lemma LineCount(n: nat)
    ensures Base64.EncodedLen(0) == 0 && Base64.EncodedLen(LINE) == 64
    ensures 0 < n <= LINE ==> 0 < Base64.EncodedLen(n) <= 64
    ensures n > LINE ==> Base64.EncodedLen(n) == 64 + Base64.EncodedLen(n - LINE)
  {
  }

  /** The size computed up front is the size written. */
  lemma ArmourLength(typ: seq<byte>, src: seq<byte>)
    ensures |Armour(typ, src)| == Len(|typ|, |src|)
  {
    LinesLength(src);
  }

  /** Encoded a line at a time, the body is still the encoding of the whole. */
  lemma {:induction false} LinesStripped(src: seq<byte>)
    ensures Base64.Stripped(Lines(src)) == Base64.Encode(src)
  {
    hide Base64.Encode;
    if src == [] {
      EncodeNothing();
    } else if |src| <= LINE {
      StrippedLine(src);
    } else {
      var line, rest := src[..LINE], src[LINE..];
      StrippedLine(line);
      LinesStripped(rest);
      Base64.StrippedJoin(Base64.Encode(line) + [LF], Lines(rest));
      Base64.EncodeSplit(line, rest);
      assert line + rest == src;
    }
  }

  lemma EncodeNothing()
    ensures Base64.Encode([]) == [] && Base64.Stripped([]) == []
  {
  }

  lemma StrippedLine(b: seq<byte>)
    ensures Base64.Stripped(Base64.Encode(b) + [LF]) == Base64.Encode(b)
  {
    hide Base64.Encode;
    Base64.EncodePlain(b);
    Base64.StrippedPlain(Base64.Encode(b));
    Base64.StrippedJoin(Base64.Encode(b), [LF]);
    assert [LF][1..] == [];
    assert Base64.Stripped([LF]) == [];
  }

  /** Body bytes are symbols, pad signs and line feeds. */
  predicate BodyByte(c: byte) {
    Base64.Plain(c) || c == LF
  }

  lemma {:induction false} LinesBytes(src: seq<byte>)
    ensures forall i :: 0 <= i < |Lines(src)| ==> BodyByte(Lines(src)[i])
  {
    hide Base64.Encode;
    if |src| == 0 {
    } else if |src| <= LINE {
      Base64.EncodePlain(src);
    } else {
      Base64.EncodePlain(src[..LINE]);
      LinesBytes(src[LINE..]);
    }
  }

  /** Every line but the last has 64 symbols, and every line ends in a line feed. */
  lemma {:induction false} LineFeeds(src: seq<byte>, i: nat)
    requires i < |Lines(src)|
    ensures Lines(src)[i] == LF <==> i % 65 == 64 || i == |Lines(src)| - 1
    decreases |src|
  {
    hide Base64.Encode, Base64.Plain;
    LineCount(|src|);
    if |src| <= LINE {
      OneLine(src, i);
    } else {
      var first := src[..LINE];
      OneLine(first, if i < 65 then i else 0);
      var rest := Lines(src[LINE..]);
      assert Lines(src) == Lines(first) + rest;
      LinesSome(src[LINE..]);
      if i >= 65 {
        LineFeeds(src[LINE..], i - 65);
        LineOn(i);
      }
    }
  }

  lemma LineOn(i: nat)
    requires i >= 65
    ensures (i - 65) % 65 == i % 65
  {
  }

  lemma OneLine(line: seq<byte>, i: nat)
    requires 0 < |line| <= LINE
    ensures |Lines(line)| == Base64.EncodedLen(|line|) + 1 <= 65 && (|line| == LINE ==> |Lines(line)| == 65)
    ensures i < |Lines(line)| ==> (Lines(line)[i] == LF <==> i == |Lines(line)| - 1)
  {
    hide Base64.Encode, Base64.EncodedLen;
    LineCount(|line|);
    Base64.EncodeLength(line);
    Base64.EncodePlain(line);
  }

  /** Copies at n, advancing it. */
  method Put(dst: array<byte>, n: nat, p: seq<byte>) returns (n': nat)
    requires n + |p| <= dst.Length
    modifies dst
    ensures n' == n + |p| && dst[..n'] == old(dst[..n]) + p
  {
    for i := 0 to |p|
      invariant forall j :: 0 <= j < n ==> dst[j] == old(dst[j])
      invariant forall j :: n <= j < n + i ==> dst[j] == p[j - n]
    {
      dst[n + i] := p[i];
    }
    n' := n + |p|;
  }

  method PutLines(dst: array<byte>, at: nat, src: seq<byte>) returns (n: nat)
    requires at + |Lines(src)| <= dst.Length
    modifies dst
    ensures n == at + |Lines(src)| && dst[..n] == old(dst[..at]) + Lines(src)
  {
    hide Lines, Base64.Encode;
    n := at;
    ghost var head := dst[..at];
    var rest := src;
    ghost var done: seq<byte> := [];
    while |rest| > 0
      invariant done + Lines(rest) == Lines(src)
      invariant n == at + |done| <= dst.Length && dst[..n] == head + done
      decreases |rest|
    {
      var k := if |rest| < LINE then |rest| else LINE;
      LinesNext(rest, k);
      n := Put(dst, n, Base64.Encode(rest[..k]));
      n := Put(dst, n, [LF]);
      done := done + (Base64.Encode(rest[..k]) + [LF]);
      rest := rest[k..];
    }
    LinesNone(rest);
  }

  lemma LinesNext(src: seq<byte>, k: nat)
    requires |src| > 0 && k == (if |src| < LINE then |src| else LINE)
    ensures Lines(src) == Base64.Encode(src[..k]) + [LF] + Lines(src[k..])
  {
    hide Base64.Encode;
    if |src| <= LINE {
      assert src[..k] == src && src[k..] == [];
    }
  }

  lemma LinesNone(src: seq<byte>)
    requires src == []
    ensures Lines(src) == []
  {
  }

  /** The armour written into a buffer of at least its size, and how much was written. */
  method EncodeInto(dst: array<byte>, typ: seq<byte>, src: seq<byte>) returns (n: nat)
    requires dst.Length >= Len(|typ|, |src|)
    modifies dst
    ensures n == Len(|typ|, |src|) && dst[..n] == Armour(typ, src)
  {
    hide Lines, Len, Marker, Begin, End;
    ArmourLength(typ, src);
    n := PutMarker(dst, 0, Begin(), typ);
    n := PutLines(dst, n, src);
    n := PutMarker(dst, n, End(), typ);
  }

  method PutMarker(dst: array<byte>, at: nat, lead: seq<byte>, typ: seq<byte>) returns (n: nat)
    requires at + |lead| + |typ| + 6 <= dst.Length
    modifies dst
    ensures n == at + |lead| + |typ| + 6 && dst[..n] == old(dst[..at]) + Marker(lead, typ)
  {
    hide Dashes;
    ghost var was := dst[..at];
    n := Put(dst, at, lead);
    n := Put(dst, n, typ);
    n := Put(dst, n, Dashes());
    n := Put(dst, n, [LF]);
    assert dst[..n] == was + (lead + typ + Dashes() + [LF]);
  }

  // Reading.

  datatype Error = Malformed | Legacy | Headers
  datatype Located = Err(error: Error) | Block(typ: seq<byte>, body: seq<byte>)

  /** The first place from `from` on where pat stands, or -1. */
  function IndexFrom(data: seq<byte>, pat: seq<byte>, from: nat): (i: int)
    requires from <= |data|
    ensures -1 <= i
    ensures i >= 0 ==> from <= i && i + |pat| <= |data| && data[i..i + |pat|] == pat
    decreases |data| - from
  {
    if from + |pat| > |data| then -1
    else if data[from..from + |pat|] == pat then from
    else if from == |data| then -1
    else IndexFrom(data, pat, from + 1)
  }

  /** Nothing before k starts with pat's first byte, so pat is found at k. */
  lemma {:induction false} IndexFinds(data: seq<byte>, pat: seq<byte>, from: nat, k: nat)
    requires from <= k && |pat| > 0 && k + |pat| <= |data| && data[k..k + |pat|] == pat
    requires forall i :: from <= i < k ==> data[i] != pat[0]
    ensures IndexFrom(data, pat, from) == k
    decreases k - from
  {
    if from >= k {
    } else {
      assert data[from..from + |pat|][0] == data[from];
      IndexFinds(data, pat, from + 1, k);
    }
  }

  function IndexByte(b: seq<byte>, c: byte): (i: int)
    ensures -1 <= i < |b|
    ensures i >= 0 ==> b[i] == c
    ensures forall j :: 0 <= j < (if i < 0 then |b| else i) ==> b[j] != c
  {
    if b == [] then -1
    else if b[0] == c then 0
    else
      var i := IndexByte(b[1..], c);
      if i < 0 then -1 else i + 1
  }

  function TrimRight(b: seq<byte>, c: byte): (r: seq<byte>)
    ensures |r| <= |b| && r == b[..|r|]
  {
    if b != [] && b[|b| - 1] == c then TrimRight(b[..|b| - 1], c) else b
  }

  datatype Line = Line(line: seq<byte>, after: seq<byte>)

  /** The first line and what follows it. */
  function SplitLine(b: seq<byte>): (r: Option<Line>)
    ensures r.Some? ==> |r.value.after| < |b|
  {
    var k := IndexByte(b, LF);
    if k < 0 then None else Some(Line(TrimRight(b[..k], CR), b[k + 1..]))
  }

  /** The header lines in front of the body: whether there are any, and whether one of them means encryption. */
  datatype Scan = Truncated | Scanned(headers: nat, legacy: bool, rest: seq<byte>)

  function ScanHeaders(legacy: seq<byte> -> bool, b: seq<byte>): Scan
    decreases |b|
  {
    var r := SplitLine(b);
    if r.None? then Truncated
    else
      var k := IndexByte(r.value.line, COLON);
      if k < 0 then Scanned(0, false, b)
      else
        var s := ScanHeaders(legacy, r.value.after);
        if s.Truncated? then Truncated
        else Scanned(s.headers + 1, s.legacy || legacy(r.value.line[..k]), s.rest)
  }

  /** The body up to the footer, which must name the header's label. */
  function Body(typ: seq<byte>, rest: seq<byte>): Located {
    var e := IndexFrom(rest, End(), 0);
    if e < 0 then Err(Malformed)
    else
      var footer := rest[e + |End()|..];
      if typ <= footer && Dashes() <= footer[|typ|..] then Block(typ, rest[..e]) else Err(Malformed)
  }

  /** What follows the label's closing dashes. */
  function Opened(legacy: seq<byte> -> bool, typ: seq<byte>, b: seq<byte>): Located {
    var line := SplitLine(b);
    if line.None? then Err(Malformed)
    else
      match ScanHeaders(legacy, line.value.after)
      case Truncated => Err(Malformed)
      case Scanned(headers, encrypted, after) =>
        if encrypted then Err(Legacy)
        else if headers > 0 then Err(Headers)
        else Body(typ, after)
  }

  /** The first block: its label and its body as it stands. */
  function Locate(legacy: seq<byte> -> bool, data: seq<byte>): Located {
    var i := IndexFrom(data, Begin(), 0);
    if i < 0 then Err(Malformed)
    else
      var rest := data[i + |Begin()|..];
      var j := IndexFrom(rest, Dashes(), 0);
      if j < 0 then Err(Malformed) else Opened(legacy, rest[..j], rest[j + |Dashes()|..])
  }

  /** The scan as the source runs it: a loop over the lines. */
  method ScanLoop(legacy: seq<byte> -> bool, b: seq<byte>) returns (s: Scan)
    ensures s == ScanHeaders(legacy, b)
  {
    var rest, headers, encrypted := b, 0, false;
    ghost var whole := ScanHeaders(legacy, b);
    while true
      invariant ScanHeaders(legacy, rest).Truncated? ==> whole.Truncated?
      invariant !ScanHeaders(legacy, rest).Truncated? ==>
        var r := ScanHeaders(legacy, rest);
        whole == Scanned(headers + r.headers, encrypted || r.legacy, r.rest)
      decreases |rest|
    {
      var r := SplitLine(rest);
      if r.None? {
        return Truncated;
      }
      var k := IndexByte(r.value.line, COLON);
      if k < 0 {
        return Scanned(headers, encrypted, rest);
      }
      encrypted := encrypted || legacy(r.value.line[..k]);
      headers := headers + 1;
      rest := r.value.after;
    }
  }

  /** Lines with their line feeds. */
  function Flat(lines: seq<seq<byte>>): seq<byte> {
    if lines == [] then [] else lines[0] + [LF] + Flat(lines[1..])
  }

  /** A line with a colon in it, and the name in front of the colon. */
  predicate Header(line: seq<byte>) { COLON in line && LF !in line }

  function Name(line: seq<byte>): seq<byte>
    requires Header(line)
  {
    line[..IndexByte(line, COLON)]
  }

  /** One of the headers has a name that means encryption. */
  predicate Encrypts(legacy: seq<byte> -> bool, lines: seq<seq<byte>>)
    requires forall i :: 0 <= i < |lines| ==> Header(lines[i])
  {
    exists i :: 0 <= i < |lines| && legacy(Name(lines[i]))
  }

  /** Trimming the carriage returns at its end changes no line's first colon. */
  lemma {:induction false} TrimKeepsColon(line: seq<byte>)
    ensures IndexByte(TrimRight(line, CR), COLON) == IndexByte(line, COLON)
    ensures COLON in line ==> IndexByte(line, COLON) <= |TrimRight(line, CR)|
  {
    if line == [] || line[|line| - 1] != CR {
    } else {
      var front := line[..|line| - 1];
      TrimKeepsColon(front);
      ColonInFront(front, line);
    }
  }

  lemma ColonInFront(front: seq<byte>, line: seq<byte>)
    requires line == front + [CR]
    ensures IndexByte(front, COLON) == IndexByte(line, COLON)
  {
    var i, j := IndexByte(front, COLON), IndexByte(line, COLON);
    if j >= 0 {
      assert front[j] == COLON;
    }
    if i >= 0 {
      assert line[i] == COLON;
    }
  }

  /** The scan's first line. */
  lemma ScanStep(legacy: seq<byte> -> bool, b: seq<byte>, line: seq<byte>, after: seq<byte>)
    requires b == line + [LF] + after && LF !in line
    ensures COLON !in line ==> ScanHeaders(legacy, b) == Scanned(0, false, b)
    ensures COLON in line ==>
      var s := ScanHeaders(legacy, after);
      ScanHeaders(legacy, b)
      == if s.Truncated? then Truncated else Scanned(s.headers + 1, s.legacy || legacy(Name(line)), s.rest)
  {
    hide IndexByte, TrimRight;
    assert b[|line|] == LF && forall i :: 0 <= i < |line| ==> b[i] == line[i];
    assert IndexByte(b, LF) == |line|;
    assert b[..|line|] == line && b[|line| + 1..] == after;
    TrimKeepsColon(line);
    var c := IndexByte(line, COLON);
    if c >= 0 {
      assert TrimRight(line, CR)[..c] == Name(line);
    }
  }

  lemma ScanNone(legacy: seq<byte> -> bool, b: seq<byte>)
    requires LF !in b
    ensures ScanHeaders(legacy, b) == Truncated
  {
    hide IndexByte;
  }

  /** What the scan finds: the text is its longest run of header lines and what is left
      after them. It is truncated when what is left has no line; else the count is theirs,
      and so is the verdict on encryption, for every test of a name. */
  lemma {:induction false} ScanExact(legacy: seq<byte> -> bool, b: seq<byte>) returns (lines: seq<seq<byte>>, left: seq<byte>)
    ensures b == Flat(lines) + left && forall i :: 0 <= i < |lines| ==> Header(lines[i])
    ensures LF in left ==> COLON !in left[..IndexByte(left, LF)]
    ensures ScanHeaders(legacy, b) == if LF in left then Scanned(|lines|, Encrypts(legacy, lines), left) else Truncated
    decreases |b|
  {
    hide ScanHeaders, IndexByte, Encrypts;
    lines, left := [], b;
    var k := IndexByte(b, LF);
    NoLines(legacy);
    if k < 0 {
      ScanNone(legacy, b);
    } else {
      var line, after := b[..k], b[k + 1..];
      assert b == line + [LF] + after;
      ScanStep(legacy, b, line, after);
      if COLON !in line {
      } else {
        var more;
        more, left := ScanExact(legacy, after);
        lines := [line] + more;
        assert lines[1..] == more;
        EncryptsMore(legacy, line, more);
      }
    }
  }

  lemma NoLines(legacy: seq<byte> -> bool)
    ensures !Encrypts(legacy, [])
  {
  }

  lemma EncryptsMore(legacy: seq<byte> -> bool, line: seq<byte>, more: seq<seq<byte>>)
    requires Header(line) && forall i :: 0 <= i < |more| ==> Header(more[i])
    ensures Encrypts(legacy, [line] + more) <==> legacy(Name(line)) || Encrypts(legacy, more)
  {
    var lines := [line] + more;
    if Encrypts(legacy, more) {
      var i :| 0 <= i < |more| && legacy(Name(more[i]));
      assert lines[i + 1] == more[i];
    }
    if legacy(Name(line)) {
      assert lines[0] == line;
    }
  }

  predicate Space(c: byte) {
    c == 32 || 9 <= c <= 13
  }

  /** Without the blanks at either end. */
  function Trimmed(b: seq<byte>): seq<byte> {
    if b == [] then b
    else if Space(b[0]) then Trimmed(b[1..])
    else if Space(b[|b| - 1]) then Trimmed(b[..|b| - 1])
    else b
  }

  /** The decoded body, which must not be empty. */
  function Decoded(body: seq<byte>): (r: Option<seq<byte>>)
    ensures r.Some? ==> r.value != []
  {
    var b := Trimmed(body);
    if |b| < 4 then None
    else
      var r := Base64.Decode(b);
      if r.None? || r.value == [] then None else r
  }

  // What is written is found again.

  lemma {:induction false} TrimStripped(b: seq<byte>)
    requires forall i :: 0 <= i < |b| ==> BodyByte(b[i])
    ensures Base64.Stripped(Trimmed(b)) == Base64.Stripped(b)
  {
    if b == [] {
    } else if Space(b[0]) {
      TrimStripped(b[1..]);
    } else if Space(b[|b| - 1]) {
      var front := b[..|b| - 1];
      TrimStripped(front);
      Base64.StrippedJoin(front, [LF]);
      assert b == front + [LF];
      assert [LF][1..] == [];
      assert Base64.Stripped([LF]) == [];
    }
  }

  lemma {:induction false} StrippedShorter(b: seq<byte>)
    ensures |Base64.Stripped(b)| <= |b|
  {
    if b == [] {
    } else {
      StrippedShorter(b[1..]);
    }
  }

  /** The body decodes to what was armoured. */
  lemma DecodedLines(src: seq<byte>)
    requires src != []
    ensures Decoded(Lines(src)) == Some(src)
  {
    hide Lines, Base64.Encode;
    LinesBytes(src);
    TrimStripped(Lines(src));
    LinesStripped(src);
    Base64.QuantaEncode(src);
    Base64.EncodeLength(src);
    StrippedShorter(Trimmed(Lines(src)));
  }

  lemma {:induction false} NoByte(b: seq<byte>, c: byte)
    requires forall i :: 0 <= i < |b| ==> b[i] != c
    ensures IndexByte(b, c) == -1
  {
  }

  /** A body, which starts with a symbol, has no header line. */
  lemma NoHeaders(legacy: seq<byte> -> bool, src: seq<byte>, foot: seq<byte>)
    requires src != [] && |Lines(src)| > 0
    ensures ScanHeaders(legacy, Lines(src) + foot) == Scanned(0, false, Lines(src) + foot)
  {
    hide Base64.Encode;
    LinesBytes(src);
    LinesNext(src, if |src| < LINE then |src| else LINE);
    var b := Lines(src) + foot;
    var at := |Base64.Encode(src[..if |src| < LINE then |src| else LINE])|;
    assert b[at] == LF;
    var k := IndexByte(b, LF);
    assert 0 <= k <= at;
    var line := TrimRight(b[..k], CR);
    assert forall i :: 0 <= i < |line| ==> line[i] == Lines(src)[i];
    NoByte(line, COLON);
  }

  ghost predicate Label(typ: seq<byte>) {
    forall i :: 0 <= i < |typ| ==> typ[i] != DASH
  }

  lemma MarkerSplit(lead: seq<byte>, typ: seq<byte>)
    ensures Marker(lead, typ) == lead + (typ + Dashes() + [LF])
  {
    hide Dashes;
  }

  lemma BodyFound(typ: seq<byte>, src: seq<byte>)
    ensures Body(typ, Lines(src) + Marker(End(), typ)) == Block(typ, Lines(src))
  {
    hide Lines, Base64.Encode, End, Dashes, IndexFrom, Marker;
    LinesBytes(src);
    MarkerSplit(End(), typ);
    var foot := typ + Dashes() + [LF];
    var rest := Lines(src) + (End() + foot);
    var k := |Lines(src)|;
    assert rest[k..k + |End()|] == End();
    assert forall i :: 0 <= i < k ==> rest[i] == Lines(src)[i];
    IndexFinds(rest, End(), 0, k);
    assert rest[k + |End()|..] == foot;
    assert foot[|typ|..] == Dashes() + [LF];
    assert rest[..k] == Lines(src);
  }

  lemma OpenedFound(legacy: seq<byte> -> bool, typ: seq<byte>, src: seq<byte>)
    requires src != []
    ensures Opened(legacy, typ, [LF] + Lines(src) + Marker(End(), typ)) == Block(typ, Lines(src))
  {
    hide Lines, Marker, End, Body, ScanHeaders;
    var foot := Marker(End(), typ);
    var tail := [LF] + Lines(src) + foot;
    assert IndexByte(tail, LF) == 0;
    assert tail[1..] == Lines(src) + foot;
    LinesSome(src);
    NoHeaders(legacy, src, foot);
    BodyFound(typ, src);
  }

  /** The locator finds the label and body of anything the encoder wrote. */
  lemma LocateArmour(legacy: seq<byte> -> bool, typ: seq<byte>, src: seq<byte>)
    requires src != [] && Label(typ)
    ensures Locate(legacy, Armour(typ, src)) == Block(typ, Lines(src))
  {
    hide Lines, Begin, Dashes, End, Opened, IndexFrom;
    var foot := Marker(End(), typ);
    var tail := [LF] + Lines(src) + foot;
    var rest := typ + Dashes() + tail;
    var data := Armour(typ, src);
    ArmourFrom(Begin(), typ, Dashes(), Lines(src), foot);
    IndexFinds(data, Begin(), 0, 0);
    Between(typ, Dashes(), tail);
    IndexFinds(rest, Dashes(), 0, |typ|);
    OpenedFound(legacy, typ, src);
  }

  lemma ArmourFrom(begin: seq<byte>, typ: seq<byte>, dashes: seq<byte>, lines: seq<byte>, foot: seq<byte>)
    ensures (begin + typ + dashes + [LF]) + lines + foot == begin + (typ + dashes + ([LF] + lines + foot))
    ensures (begin + (typ + dashes + ([LF] + lines + foot)))[|begin|..] == typ + dashes + ([LF] + lines + foot)
  {
  }

  lemma Between(a: seq<byte>, b: seq<byte>, c: seq<byte>)
    ensures (a + b + c)[|a|..|a| + |b|] == b && (a + b + c)[|a| + |b|..] == c && (a + b + c)[..|a|] == a
  {
  }

  lemma LinesSome(src: seq<byte>)
    requires src != []
    ensures |Lines(src)| > 0
  {
  }

  /** Header lines are counted, and looked at, one and all. */
  lemma {:induction false} ScanForward(legacy: seq<byte> -> bool, lines: seq<seq<byte>>, line: seq<byte>, after: seq<byte>)
    requires (forall i :: 0 <= i < |lines| ==> Header(lines[i])) && COLON !in line && LF !in line
    ensures ScanHeaders(legacy, Flat(lines) + (line + [LF] + after)) ==
      Scanned(|lines|, Encrypts(legacy, lines), line + [LF] + after)
    decreases |lines|
  {
    hide ScanHeaders, Encrypts;
    var left := line + [LF] + after;
    NoLines(legacy);
    if lines == [] {
      assert Flat(lines) + left == left;
      ScanStep(legacy, left, line, after);
    } else {
      ScanForward(legacy, lines[1..], line, after);
      assert Flat(lines) + left == lines[0] + [LF] + (Flat(lines[1..]) + left);
      ScanStep(legacy, Flat(lines) + left, lines[0], Flat(lines[1..]) + left);
      EncryptsMore(legacy, lines[0], lines[1..]);
      assert [lines[0]] + lines[1..] == lines;
    }
  }

  /** A block with header lines is refused, as the old encryption if one of them says so and for the headers otherwise,
      whatever follows them. */
  lemma HeadersRefused(legacy: seq<byte> -> bool, typ: seq<byte>, lines: seq<seq<byte>>, line: seq<byte>, after: seq<byte>)
    requires Label(typ) && lines != [] && (forall i :: 0 <= i < |lines| ==> Header(lines[i])) && COLON !in line && LF !in line
    ensures Locate(legacy, Marker(Begin(), typ) + (Flat(lines) + (line + [LF] + after))) ==
      Err(if Encrypts(legacy, lines) then Legacy else Headers)
  {
    hide Flat, Locate, Opened, ScanHeaders, Encrypts, Marker;
    var text := Flat(lines) + (line + [LF] + after);
    ScanForward(legacy, lines, line, after);
    LocateText(legacy, typ, text);
    OpenedText(legacy, typ, text);
  }

  /** Behind a begin line the locator goes on with the text. */
  lemma LocateText(legacy: seq<byte> -> bool, typ: seq<byte>, text: seq<byte>)
    requires Label(typ)
    ensures Locate(legacy, Marker(Begin(), typ) + text) == Opened(legacy, typ, [LF] + text)
  {
    hide Begin, Dashes, End, IndexFrom, Opened, Marker;
    var tail := [LF] + text;
    var rest := typ + Dashes() + tail;
    var data := Marker(Begin(), typ) + text;
    BeginLine(Begin(), typ, Dashes(), text);
    MarkerSplit(Begin(), typ);
    IndexFinds(data, Begin(), 0, 0);
    Between(typ, Dashes(), tail);
    IndexFinds(rest, Dashes(), 0, |typ|);
  }

  lemma BeginLine(begin: seq<byte>, typ: seq<byte>, dashes: seq<byte>, text: seq<byte>)
    ensures var data, rest := begin + (typ + dashes + [LF]) + text, typ + dashes + ([LF] + text);
      data == begin + rest && data[0..|begin|] == begin && data[|begin|..] == rest
  {
  }

  lemma OpenedText(legacy: seq<byte> -> bool, typ: seq<byte>, text: seq<byte>)
    requires ScanHeaders(legacy, text).Scanned? && ScanHeaders(legacy, text).headers > 0
    ensures Opened(legacy, typ, [LF] + text) == Err(if ScanHeaders(legacy, text).legacy then Legacy else Headers)
  {
    hide ScanHeaders, Body;
    assert IndexByte([LF] + text, LF) == 0 && ([LF] + text)[1..] == text;
  }

  /** The search misses nothing. */
  lemma {:induction false} IndexFirst(data: seq<byte>, pat: seq<byte>, from: nat, k: nat)
    requires from <= k && k + |pat| <= |data| && data[k..k + |pat|] == pat
    ensures 0 <= IndexFrom(data, pat, from) <= k
    decreases k - from
  {
    if from < k && data[from..from + |pat|] != pat {
      IndexFirst(data, pat, from + 1, k);
    }
  }

  /** The pattern stands at k. */
  predicate StandsAt(data: seq<byte>, pat: seq<byte>, k: nat) {
    k + |pat| <= |data| && data[k..k + |pat|] == pat
  }

  /** It stands nowhere in the text. */
  ghost predicate Absent(data: seq<byte>, pat: seq<byte>) {
    forall k: nat :: !StandsAt(data, pat, k)
  }

  /** What a search finds: the text up to the pattern, which stands nowhere in it, and what follows it. */
  lemma FoundFirst(data: seq<byte>, pat: seq<byte>, i: nat)
    requires pat != [] && IndexFrom(data, pat, 0) == i
    ensures i + |pat| <= |data| && data == data[..i] + (pat + data[i + |pat|..]) && Absent(data[..i], pat)
    ensures forall k: nat :: k < i ==> !StandsAt(data, pat, k)
  {
    hide IndexFrom, StandsAt;
    Parted(data, pat, i);
    forall k: nat
      ensures k < i ==> !StandsAt(data, pat, k)
      ensures !StandsAt(data[..i], pat, k)
    {
      NotBefore(data, pat, i, k);
    }
  }

  lemma Parted(data: seq<byte>, pat: seq<byte>, i: nat)
    requires i + |pat| <= |data| && data[i..i + |pat|] == pat
    ensures data == data[..i] + (pat + data[i + |pat|..])
  {
  }

  lemma NotBefore(data: seq<byte>, pat: seq<byte>, i: nat, k: nat)
    requires pat != [] && IndexFrom(data, pat, 0) == i
    ensures k < i ==> !StandsAt(data, pat, k)
    ensures !StandsAt(data[..i], pat, k)
  {
    hide IndexFrom;
    if k + |pat| <= i {
      assert data[..i][k..k + |pat|] == data[k..k + |pat|];
    }
    if k < i && StandsAt(data, pat, k) {
      IndexFirst(data, pat, 0, k);
    }
  }

  /** What the locator takes for a block is one: the first begin line, the rest of that line, a body with no end line
      in it, and an end line with the same label. */
  lemma LocatedOnly(legacy: seq<byte> -> bool, data: seq<byte>)
      returns (before: seq<byte>, line: seq<byte>, after: seq<byte>)
    requires Locate(legacy, data).Block?
    ensures var r := Locate(legacy, data);
      && data == before + (Begin() + (r.typ + (Dashes() + (line + [LF] + (r.body + (End() + (r.typ + (Dashes() + after))))))))
      && LF !in line && Absent(r.typ, Dashes()) && Absent(r.body, End())
      && forall k: nat :: k < |before| ==> !StandsAt(data, Begin(), k)
  {
    hide Begin, End, Dashes, IndexFrom, Opened, Absent, StandsAt;
    var i := IndexFrom(data, Begin(), 0);
    FoundFirst(data, Begin(), i);
    var rest := data[i + |Begin()|..];
    var j := IndexFrom(rest, Dashes(), 0);
    FoundFirst(rest, Dashes(), j);
    before := data[..i];
    line, after := OpenedOnly(legacy, rest[..j], rest[j + |Dashes()|..]);
  }

  lemma OpenedOnly(legacy: seq<byte> -> bool, typ: seq<byte>, b: seq<byte>) returns (line: seq<byte>, after: seq<byte>)
    requires Opened(legacy, typ, b).Block?
    ensures var r := Opened(legacy, typ, b);
      && r.typ == typ && LF !in line && Absent(r.body, End())
      && b == line + [LF] + (r.body + (End() + (typ + (Dashes() + after))))
  {
    hide End, Dashes, IndexByte, TrimRight, ScanHeaders, Body, Absent;
    var k := IndexByte(b, LF);
    line := b[..k];
    var text := b[k + 1..];
    assert b == line + [LF] + text;
    ScanNoHeader(legacy, text);
    after := BodyOnly(typ, text);
  }

  lemma BodyOnly(typ: seq<byte>, text: seq<byte>) returns (after: seq<byte>)
    requires Body(typ, text).Block?
    ensures var r := Body(typ, text);
      r.typ == typ && Absent(r.body, End()) && text == r.body + (End() + (typ + (Dashes() + after)))
  {
    hide End, Dashes, IndexFrom, Absent;
    var e := IndexFrom(text, End(), 0);
    FoundFirst(text, End(), e);
    var footer := text[e + |End()|..];
    after := footer[|typ| + |Dashes()|..];
    assert footer == typ + footer[|typ|..];
    assert footer[|typ|..] == Dashes() + after;
  }

  lemma ScanNoHeader(legacy: seq<byte> -> bool, text: seq<byte>)
    ensures ScanHeaders(legacy, text).Scanned? && ScanHeaders(legacy, text).headers == 0 ==> ScanHeaders(legacy, text).rest == text
  {
    hide IndexByte, TrimRight;
  }
}
