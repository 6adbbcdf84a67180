/** Folding content lines at 75 octets without splitting a UTF-8 sequence
    (internal/ical/emit.go; section 3.1 of RFC 5545, section 4 of RFC 3629). */
module LineFolding {

  type Byte = b: int | 0 <= b < 256

  type Bytes = seq<Byte>

  const CR: Byte := 13
  const LF: Byte := 10
  const SP: Byte := 32
  const CRLF: Bytes := [CR, LF]
  const LIMIT := 75

  // ----- UTF-8 -----

  predicate Tail(b: Byte) {
    0x80 <= b <= 0xBF
  }

  /** The bytes allowed after a lead byte, by which overlong forms, surrogates and
      values past the last code point are excluded. */
  predicate SecondFits(lead: Byte, second: Byte) {
    if lead == 0xE0 then 0xA0 <= second <= 0xBF
    else if lead == 0xED then 0x80 <= second <= 0x9F
    else if lead == 0xF0 then 0x90 <= second <= 0xBF
    else if lead == 0xF4 then 0x80 <= second <= 0x8F
    else Tail(second)
  }

  /** The length that a lead byte announces. */
  function Announced(lead: Byte): int {
    if 0xC2 <= lead <= 0xDF then 2
    else if 0xE0 <= lead <= 0xEF then 3
    else if 0xF0 <= lead <= 0xF4 then 4
    else 1
  }

  /** A multi-byte sequence of the encoding's grammar starts here. */
  predicate StartsSequence(s: Bytes) {
    s != [] &&
    var n := Announced(s[0]);
    2 <= n <= |s| && SecondFits(s[0], s[1]) && (n >= 3 ==> Tail(s[2])) && (n >= 4 ==> Tail(s[3]))
  }

  /** The size the decoder reports: that of a well-formed sequence, else one. */
  function RuneSize(s: Bytes): (n: int)
    requires s != []
    ensures 1 <= n <= 4 && n <= |s|
  {
    if StartsSequence(s) then Announced(s[0]) else 1
  }

  /** The code points that take more than one octet. */
  predicate MultiByte(point: int) {
    0x80 <= point <= 0x10FFFF && !(0xD800 <= point <= 0xDFFF)
  }

  /** Their encoding. */
  function Encoding(point: int): (s: Bytes)
    requires MultiByte(point)
    ensures 2 <= |s| <= 4
  {
    if point < 0x800 then [0xC0 + point / 0x40, SixBits(point)]
    else if point < 0x10000 then [0xE0 + point / 0x1000, SixBits(point / 0x40), SixBits(point)]
    else [0xF0 + point / 0x40000, SixBits(point / 0x1000), SixBits(point / 0x40), SixBits(point)]
  }

  /** The octet for the low six bits. */
  function SixBits(n: int): Byte {
    0x80 + n % 0x40
  }

  predicate Begins(s: Bytes, prefix: Bytes) {
    |prefix| <= |s| && s[..|prefix|] == prefix
  }

  lemma {:induction false} TwoOctets(a: Byte, b: Byte) returns (point: int)
    requires 0xC2 <= a <= 0xDF && Tail(b)
    ensures MultiByte(point) && Encoding(point) == [a, b]
  {
    var x: int, y: int := a, b;
    point := (x - 0xC0) * 0x40 + (y - 0x80);
  }

  lemma {:induction false} SixBitsOf(high: int, b: Byte)
    requires Tail(b)
    ensures var low: int := b; (high * 0x40 + (low - 0x80)) / 0x40 == high && SixBits(high * 0x40 + (low - 0x80)) == b
  {}

  lemma {:induction false} ThreeOctets(a: Byte, b: Byte, c: Byte) returns (point: int)
    requires 0xE0 <= a <= 0xEF && Tail(b) && SecondFits(a, b) && Tail(c)
    ensures MultiByte(point) && Encoding(point) == [a, b, c]
  {
    var x: int, y: int, z: int := a, b, c;
    var high := (x - 0xE0) * 0x40 + (y - 0x80);
    point := high * 0x40 + (z - 0x80);
    SixBitsOf(x - 0xE0, b);
    SixBitsOf(high, c);
    Shifted(point, 0x40, 0x40);
  }

  lemma {:induction false} Shifted(n: int, p: int, q: int)
    requires n >= 0 && ((p == 0x40 && q == 0x40) || (p == 0x40 && q == 0x1000))
    ensures n / p / q == n / (p * q)
  {}

  lemma {:induction false} FourOctets(a: Byte, b: Byte, c: Byte, d: Byte) returns (point: int)
    requires 0xF0 <= a <= 0xF4 && Tail(b) && SecondFits(a, b) && Tail(c) && Tail(d)
    ensures MultiByte(point) && Encoding(point) == [a, b, c, d]
  {
    var w: int, x: int, y: int, z: int := a, b, c, d;
    var top := (w - 0xF0) * 0x40 + (x - 0x80);
    var high := top * 0x40 + (y - 0x80);
    point := high * 0x40 + (z - 0x80);
    SixBitsOf(w - 0xF0, b);
    SixBitsOf(top, c);
    SixBitsOf(high, d);
    Shifted(point, 0x40, 0x40);
    Shifted(point, 0x40, 0x1000);
    Shifted(high, 0x40, 0x40);
  }

  /** The grammar accepts exactly the encodings of code points. */
  lemma {:induction false} SequenceEncodes(s: Bytes) returns (point: int)
    requires StartsSequence(s)
    ensures MultiByte(point) && Begins(s, Encoding(point)) && RuneSize(s) == |Encoding(point)|
  {
    if Announced(s[0]) == 2 {
      point := TwoOctets(s[0], s[1]);
    } else if Announced(s[0]) == 3 {
      point := ThreeOctets(s[0], s[1], s[2]);
    } else {
      point := FourOctets(s[0], s[1], s[2], s[3]);
    }
    assert forall i :: 0 <= i < |Encoding(point)| ==> s[i] == Encoding(point)[i];
  }

  lemma {:induction false} EncodingStarts(s: Bytes, point: int)
    requires MultiByte(point) && Begins(s, Encoding(point))
    ensures StartsSequence(s) && RuneSize(s) == |Encoding(point)|
  {
    EncodingFits(point);
    var e := Encoding(point);
    assert forall i :: 0 <= i < |e| ==> s[i] == s[..|e|][i] == e[i];
    SequenceExtends(s, e);
  }

  lemma {:induction false} EncodingFits(point: int)
    requires MultiByte(point)
    ensures StartsSequence(Encoding(point)) && Announced(Encoding(point)[0]) == |Encoding(point)|
  {
    if 0x800 <= point < 0x10000 {
      SecondOfThree(point);
    } else if point >= 0x10000 {
      SecondOfFour(point);
    }
  }

  lemma {:induction false} SecondOfThree(point: int)
    requires 0x800 <= point < 0x10000 && !(0xD800 <= point <= 0xDFFF)
    ensures SecondFits(0xE0 + point / 0x1000, SixBits(point / 0x40))
  {
    Shifted(point, 0x40, 0x40);
  }

  lemma {:induction false} SecondOfFour(point: int)
    requires 0x10000 <= point <= 0x10FFFF
    ensures SecondFits(0xF0 + point / 0x40000, SixBits(point / 0x1000))
  {}

  lemma {:induction false} SequenceExtends(s: Bytes, e: Bytes)
    requires StartsSequence(e) && Announced(e[0]) == |e| <= |s| && forall i :: 0 <= i < |e| ==> s[i] == e[i]
    ensures StartsSequence(s) && RuneSize(s) == |e|
  {}

  // ----- Folding one line -----

  /** What the loop writes from position i, with col octets on the current line. */
  function FoldFrom(line: Bytes, i: nat, col: nat): Bytes
    requires i <= |line|
    decreases |line| - i
  {
    if i == |line| then []
    else
      var sz := RuneSize(line[i..]);
      if col + sz > LIMIT then CRLF + [SP] + line[i..i + sz] + FoldFrom(line, i + sz, 1 + sz)
      else line[i..i + sz] + FoldFrom(line, i + sz, col + sz)
  }

  function FoldedLine(line: Bytes): Bytes {
    if |line| <= LIMIT then line else FoldFrom(line, 0, 0)
  }

  // ----- Splitting at CRLF -----

  predicate StartsCrlf(s: Bytes) {
    |s| >= 2 && s[0] == CR && s[1] == LF
  }

  /** The lines between CRLFs, found from the left. */
  function Lines(s: Bytes): (ls: seq<Bytes>)
    ensures ls != []
  {
    if s == [] then [[]]
    else if StartsCrlf(s) then [[]] + Lines(s[2..])
    else
      var rest := Lines(s[1..]);
      [[s[0]] + rest[0]] + rest[1..]
  }

  /** Each line followed by a CRLF. */
  function Terminated(ls: seq<Bytes>): Bytes {
    if ls == [] then [] else ls[0] + CRLF + Terminated(ls[1..])
  }

  function FoldedLines(ls: seq<Bytes>): Bytes {
    if ls == [] then [] else FoldedLine(ls[0]) + CRLF + FoldedLines(ls[1..])
  }

  predicate EndsBlank(s: Bytes) {
    |s| >= 4 && s[|s| - 4..] == CRLF + CRLF
  }

  /** Trailing blank lines removed. */
  function Trimmed(s: Bytes): Bytes
    decreases |s|
  {
    if EndsBlank(s) then Trimmed(s[..|s| - 2]) else s
  }

  function Folded(data: Bytes): Bytes {
    Trimmed(FoldedLines(Lines(data)))
  }

  method FoldLine(line: Bytes) returns (out: Bytes)
    ensures out == FoldedLine(line)
  {
    if |line| <= LIMIT { return line; }
    out := [];
    var col, i := 0, 0;
    while i < |line|
      invariant 0 <= i <= |line| && 0 <= col
      invariant out + FoldFrom(line, i, col) == FoldFrom(line, 0, 0)
    {
      var sz := RuneSize(line[i..]);
      ghost var before, rest := out, FoldFrom(line, i, col);
      ghost var written := line[i..i + sz];
      if col + sz > LIMIT {
        written := CRLF + [SP] + written;
        out := out + CRLF + [SP];
        col := 1;
      }
      out := out + line[i..i + sz];
      col := col + sz;
      i := i + sz;
      assert out == before + written;
      assert rest == written + FoldFrom(line, i, col);
      Reassociate(before, written, FoldFrom(line, i, col));
    }
    assert out + FoldFrom(line, i, col) == out;
  }

  lemma {:induction false} Reassociate(a: Bytes, b: Bytes, c: Bytes)
    ensures a + (b + c) == (a + b) + c
  {}

  /** Lines found, the one being read, and those of the rest. */
  function Joined(ls: seq<Bytes>, line: Bytes, rest: seq<Bytes>): seq<Bytes>
    requires rest != []
  {
    ls + [line + rest[0]] + rest[1..]
  }

  lemma {:induction false} JoinedAtEnd(ls: seq<Bytes>, line: Bytes, rest: Bytes)
    requires StartsCrlf(rest)
    ensures Joined(ls, line, Lines(rest)) == Joined(ls + [line], [], Lines(rest[2..]))
  {
    assert line + [] == line && [] + Lines(rest[2..])[0] == Lines(rest[2..])[0];
  }

  lemma {:induction false} JoinedOn(ls: seq<Bytes>, line: Bytes, rest: Bytes)
    requires rest != [] && !StartsCrlf(rest)
    ensures Joined(ls, line, Lines(rest)) == Joined(ls, line + [rest[0]], Lines(rest[1..]))
  {
    Reassociate(line, [rest[0]], Lines(rest[1..])[0]);
  }

  method SplitLines(data: Bytes) returns (ls: seq<Bytes>)
    ensures ls == Lines(data)
  {
    ls := [];
    var line: Bytes := [];
    var i := 0;
    assert data[0..] == data && [] + Lines(data)[0] == Lines(data)[0];
    assert Joined([], [], Lines(data)) == Lines(data);
    while i < |data|
      invariant 0 <= i <= |data|
      invariant Lines(data) == Joined(ls, line, Lines(data[i..]))
    {
      var rest := data[i..];
      assert rest[1..] == data[i + 1..];
      if StartsCrlf(rest) {
        assert rest[2..] == data[i + 2..];
        JoinedAtEnd(ls, line, rest);
        ls, line := ls + [line], [];
        i := i + 2;
      } else {
        JoinedOn(ls, line, rest);
        line := line + [data[i]];
        i := i + 1;
      }
    }
    assert line + [] == line;
    ls := ls + [line];
  }

  method FoldLines(data: Bytes) returns (out: Bytes)
    ensures out == Folded(data)
  {
    var ls := SplitLines(data);
    out := [];
    for k := 0 to |ls|
      invariant out + FoldedLines(ls[k..]) == FoldedLines(ls)
    {
      assert ls[k..][1..] == ls[k + 1..];
      var line := FoldLine(ls[k]);
      Reassociate(out, line + CRLF, FoldedLines(ls[k + 1..]));
      assert out + (line + CRLF) == out + line + CRLF;
      out := out + line + CRLF;
    }
    assert out + FoldedLines(ls[|ls|..]) == out;
    while EndsBlank(out)
      invariant Trimmed(out) == Trimmed(FoldedLines(ls))
      decreases |out|
    {
      out := out[..|out| - 2];
    }
  }

  // ----- Where a line is cut -----

  /** The positions of a line before which a fold is written. */
  function Cuts(line: Bytes, i: nat, col: nat): seq<nat>
    requires i <= |line|
    decreases |line| - i
  {
    if i == |line| then []
    else
      var sz := RuneSize(line[i..]);
      if col + sz > LIMIT then [i] + Cuts(line, i + sz, 1 + sz) else Cuts(line, i + sz, col + sz)
  }

  ghost predicate AscendingFrom(cuts: seq<nat>, from: nat, to: nat) {
    && (forall k :: 0 <= k < |cuts| ==> from <= cuts[k] <= to)
    && (forall k, l :: 0 <= k < l < |cuts| ==> cuts[k] <= cuts[l])
  }

  lemma {:induction false} CutsAscend(line: Bytes, i: nat, col: nat)
    requires i <= |line|
    ensures AscendingFrom(Cuts(line, i, col), i, |line|)
    decreases |line| - i
  {
    if i < |line| {
      var sz := RuneSize(line[i..]);
      CutsAscend(line, i + sz, if col + sz > LIMIT then 1 + sz else col + sz);
    }
  }

  /** The physical lines of a line cut at those positions. */
  function Pieces(line: Bytes, from: nat, cuts: seq<nat>, lead: Bytes): (ps: seq<Bytes>)
    requires from <= |line| && AscendingFrom(cuts, from, |line|)
    ensures ps != []
    decreases |cuts|
  {
    if cuts == [] then [lead + line[from..]]
    else [lead + line[from..cuts[0]]] + Pieces(line, cuts[0], cuts[1..], [SP])
  }

  lemma {:induction false} CutHere(now: Bytes, chunk: Bytes, rest: Bytes, later: seq<Bytes>)
    requires ([SP] + chunk) + rest + CRLF == Terminated(later)
    ensures now + (CRLF + [SP] + chunk + rest) + CRLF == Terminated([now] + later)
  {
    assert ([now] + later)[1..] == later;
    assert now + (CRLF + [SP] + chunk + rest) + CRLF == now + CRLF + (([SP] + chunk) + rest + CRLF);
  }

  function Completed(line: Bytes, from: nat, i: nat, lead: Bytes, written: Bytes): Bytes
    requires from <= i <= |line|
  {
    (lead + line[from..i]) + written + CRLF
  }

  /** The pieces as they are written; nothing if these are no cuts. */
  ghost function Laid(line: Bytes, from: nat, cuts: seq<nat>, lead: Bytes): Bytes
    requires from <= |line|
  {
    if AscendingFrom(cuts, from, |line|) then Terminated(Pieces(line, from, cuts, lead)) else []
  }

  /** At position i of a piece that starts at `from` behind `lead`, writing this
      completes the pieces cut there. */
  ghost predicate Writes(line: Bytes, from: nat, i: nat, lead: Bytes, cuts: seq<nat>, written: Bytes)
    requires from <= i <= |line|
  {
    Completed(line, from, i, lead, written) == Laid(line, from, cuts, lead)
  }

  lemma {:induction false} WritesEnd(line: Bytes, from: nat, lead: Bytes)
    requires from <= |line|
    ensures Writes(line, from, |line|, lead, [], [])
  {
    var now := lead + line[from..];
    assert line[from..|line|] == line[from..] && now + [] == now;
    assert Terminated([now]) == now + CRLF by { var one: seq<Bytes> := [now]; assert one[1..] == []; }
  }

  lemma {:induction false} WritesCut(line: Bytes, from: nat, i: nat, sz: nat, lead: Bytes, later: seq<nat>, rest: Bytes)
    requires from <= i <= i + sz <= |line| && Writes(line, i, i + sz, [SP], later, rest)
    ensures Writes(line, from, i, lead, [i] + later, CRLF + [SP] + line[i..i + sz] + rest)
  {
    var cuts := [i] + later;
    assert Completed(line, i, i + sz, [SP], rest) != [];
    assert cuts[0] == i && cuts[1..] == later;
    CutHere(lead + line[from..i], line[i..i + sz], rest, Pieces(line, i, later, [SP]));
  }

  lemma {:induction false} WritesOn(line: Bytes, from: nat, i: nat, sz: nat, lead: Bytes, cuts: seq<nat>, rest: Bytes)
    requires from <= i <= i + sz <= |line| && Writes(line, from, i + sz, lead, cuts, rest)
    ensures Writes(line, from, i, lead, cuts, line[i..i + sz] + rest)
  {
    assert line[from..i + sz] == line[from..i] + line[i..i + sz];
    assert Completed(line, from, i + sz, lead, rest) != [];
    assert lead + line[from..i + sz] == (lead + line[from..i]) + line[i..i + sz];
    Reassociate(lead + line[from..i], line[i..i + sz], rest);
  }

  /** Folding writes the pieces: each is a slice of the line, the later ones
      behind a space. */
  lemma {:induction false} FoldWritesPieces(line: Bytes, from: nat, i: nat, lead: Bytes, col: nat)
    returns (cuts: seq<nat>, written: Bytes)
    requires from <= i <= |line| && col == |lead| + i - from
    ensures cuts == Cuts(line, i, col) && written == FoldFrom(line, i, col) && Writes(line, from, i, lead, cuts, written)
    decreases |line| - i, 1
  {
    if i == |line| {
      WritesEnd(line, from, lead);
      return [], [];
    }
    var sz := RuneSize(line[i..]);
    if col + sz > LIMIT {
      var later, rest := FoldWritesPieces(line, i, i + sz, [SP], 1 + sz);
      WritesCut(line, from, i, sz, lead, later, rest);
      cuts, written := CutStep(line, i, col, sz, later, rest);
    } else {
      cuts, written := FoldWritesOn(line, from, i, lead, col, sz);
    }
  }

  lemma {:induction false} FoldWritesOn(line: Bytes, from: nat, i: nat, lead: Bytes, col: nat, sz: nat)
    returns (cuts: seq<nat>, written: Bytes)
    requires from <= i < |line| && col == |lead| + i - from && sz == RuneSize(line[i..]) && col + sz <= LIMIT
    ensures cuts == Cuts(line, i, col) && written == FoldFrom(line, i, col) && Writes(line, from, i, lead, cuts, written)
    decreases |line| - i, 0
  {
    var rest;
    cuts, rest := FoldWritesPieces(line, from, i + sz, lead, col + sz);
    written := OnStep(line, i, col, sz, cuts, rest);
    WritesOn(line, from, i, sz, lead, cuts, rest);
  }

  lemma {:induction false} CutStep(line: Bytes, i: nat, col: nat, sz: nat, later: seq<nat>, rest: Bytes)
    returns (cuts: seq<nat>, written: Bytes)
    requires i < |line| && sz == RuneSize(line[i..]) && col + sz > LIMIT
    requires later == Cuts(line, i + sz, 1 + sz) && rest == FoldFrom(line, i + sz, 1 + sz)
    ensures cuts == [i] + later == Cuts(line, i, col)
    ensures written == CRLF + [SP] + line[i..i + sz] + rest && written == FoldFrom(line, i, col)
  {
    cuts, written := Cuts(line, i, col), FoldFrom(line, i, col);
  }

  lemma {:induction false} OnStep(line: Bytes, i: nat, col: nat, sz: nat, cuts: seq<nat>, rest: Bytes) returns (written: Bytes)
    requires i < |line| && sz == RuneSize(line[i..]) && col + sz <= LIMIT
    requires cuts == Cuts(line, i + sz, col + sz) && rest == FoldFrom(line, i + sz, col + sz)
    ensures cuts == Cuts(line, i, col)
    ensures written == line[i..i + sz] + rest && written == FoldFrom(line, i, col)
  {
    written := FoldFrom(line, i, col);
  }

  /** A line within the limit is not cut. */
  lemma {:induction false} ShortUncut(line: Bytes, i: nat, col: nat)
    requires i <= |line| && col + |line| - i <= LIMIT
    ensures Cuts(line, i, col) == [] && FoldFrom(line, i, col) == line[i..]
    decreases |line| - i
  {
    if i < |line| {
      var sz := RuneSize(line[i..]);
      ShortUncut(line, i + sz, col + sz);
      assert line[i..i + sz] + line[i + sz..] == line[i..];
    }
  }

  lemma {:induction false} FoldedIsFoldFrom(line: Bytes)
    ensures FoldedLine(line) == FoldFrom(line, 0, 0)
  {
    if |line| <= LIMIT { ShortUncut(line, 0, 0); }
  }

  ghost predicate Within(ps: seq<Bytes>) {
    forall k :: 0 <= k < |ps| ==> |ps[k]| <= LIMIT
  }

  lemma {:induction false} CutWithin(line: Bytes, from: nat, cuts: seq<nat>, lead: Bytes)
    requires from <= |line| && AscendingFrom(cuts, from, |line|) && cuts != [] && AscendingFrom(cuts[1..], cuts[0], |line|)
    requires |lead| + cuts[0] - from <= LIMIT && Within(Pieces(line, cuts[0], cuts[1..], [SP]))
    ensures Within(Pieces(line, from, cuts, lead))
  {
    assert Pieces(line, from, cuts, lead) == [lead + line[from..cuts[0]]] + Pieces(line, cuts[0], cuts[1..], [SP]);
  }

  lemma {:induction false} CutsCons(line: Bytes, i: nat, col: nat)
    requires i < |line| && col + RuneSize(line[i..]) > LIMIT
    ensures var sz := RuneSize(line[i..]); var cuts := Cuts(line, i, col);
      && AscendingFrom(Cuts(line, i + sz, 1 + sz), i + sz, |line|)
      && cuts != [] && cuts[0] == i && cuts[1..] == Cuts(line, i + sz, 1 + sz)
  {
    var sz := RuneSize(line[i..]);
    CutsAscend(line, i + sz, 1 + sz);
    assert Cuts(line, i, col) == [i] + Cuts(line, i + sz, 1 + sz);
  }

  lemma {:induction false} CutsOn(line: Bytes, i: nat, col: nat)
    requires i < |line| && col + RuneSize(line[i..]) <= LIMIT
    ensures var sz := RuneSize(line[i..]); Cuts(line, i, col) == Cuts(line, i + sz, col + sz)
  {}

  /** The pieces written from position i on are within the limit. */
  ghost predicate Fits(line: Bytes, from: nat, i: nat, lead: Bytes)
    requires from <= i <= |line|
  {
    var cuts := Cuts(line, i, |lead| + i - from);
    AscendingFrom(cuts, from, |line|) && Within(Pieces(line, from, cuts, lead))
  }

  lemma {:induction false} FitsCut(line: Bytes, from: nat, i: nat, lead: Bytes, sz: nat)
    requires from <= i < |line| && sz == RuneSize(line[i..]) && |lead| + i - from <= LIMIT < |lead| + i - from + sz
    requires Fits(line, i, i + sz, [SP])
    ensures Fits(line, from, i, lead)
  {
    var col := |lead| + i - from;
    CutsAscend(line, i, col);
    CutsCons(line, i, col);
    CutWithin(line, from, Cuts(line, i, col), lead);
  }

  lemma {:induction false} FitsOn(line: Bytes, from: nat, i: nat, lead: Bytes, sz: nat)
    requires from <= i < |line| && sz == RuneSize(line[i..]) && |lead| + i - from + sz <= LIMIT
    requires Fits(line, from, i + sz, lead)
    ensures Fits(line, from, i, lead)
  {
    CutsOn(line, i, |lead| + i - from);
  }

  lemma {:induction false} PiecesFit(line: Bytes, from: nat, i: nat, lead: Bytes)
    requires from <= i <= |line| && |lead| + i - from <= LIMIT
    ensures Fits(line, from, i, lead)
    decreases |line| - i
  {
    if i == |line| {
      assert Cuts(line, i, |lead| + i - from) == [];
    } else {
      var sz := RuneSize(line[i..]);
      if |lead| + i - from + sz > LIMIT {
        PiecesFit(line, i, i + sz, [SP]);
        FitsCut(line, from, i, lead, sz);
      } else {
        PiecesFit(line, from, i + sz, lead);
        FitsOn(line, from, i, lead, sz);
      }
    }
  }

  // ----- No fold before it is needed -----

  /** Where the line is cut, the sequence that follows would not have fitted. */
  ghost predicate Full(line: Bytes, from: nat, cuts: seq<nat>, lead: Bytes)
    requires from <= |line| && AscendingFrom(cuts, from, |line|)
  {
    var ps := Pieces(line, from, cuts, lead);
    |ps| == |cuts| + 1 && forall k :: 0 <= k < |cuts| ==> cuts[k] < |line| && |ps[k]| + RuneSize(line[cuts[k]..]) > 75
  }

  lemma {:induction false} FullCut(line: Bytes, from: nat, cuts: seq<nat>, lead: Bytes)
    requires from <= |line| && AscendingFrom(cuts, from, |line|) && cuts != [] && AscendingFrom(cuts[1..], cuts[0], |line|)
    requires cuts[0] < |line| && |lead| + cuts[0] - from + RuneSize(line[cuts[0]..]) > 75
    requires Full(line, cuts[0], cuts[1..], [SP])
    ensures Full(line, from, cuts, lead)
  {
    var ps, later := Pieces(line, from, cuts, lead), Pieces(line, cuts[0], cuts[1..], [SP]);
    assert ps == [lead + line[from..cuts[0]]] + later;
    forall k | 0 <= k < |cuts| ensures cuts[k] < |line| && |ps[k]| + RuneSize(line[cuts[k]..]) > 75 {
      if k > 0 { assert cuts[k] == cuts[1..][k - 1] && ps[k] == later[k - 1]; }
    }
  }

  lemma {:induction false} FullFrom(line: Bytes, from: nat, i: nat, lead: Bytes, col: nat) returns (cuts: seq<nat>)
    requires from <= i <= |line| && col == |lead| + i - from
    ensures cuts == Cuts(line, i, col) && AscendingFrom(cuts, from, |line|) && Full(line, from, cuts, lead)
    decreases |line| - i
  {
    if i == |line| { return []; }
    var sz := RuneSize(line[i..]);
    CutsAscend(line, i, col);
    if col + sz > LIMIT {
      var later := FullFrom(line, i, i + sz, [SP], 1 + sz);
      cuts := FullAtCut(line, from, i, sz, lead, col, later);
    } else {
      cuts := FullFrom(line, from, i + sz, lead, col + sz);
      CutsOn(line, i, col);
    }
  }

  lemma {:induction false} FullAtCut(line: Bytes, from: nat, i: nat, sz: nat, lead: Bytes, col: nat, later: seq<nat>) returns (cuts: seq<nat>)
    requires from <= i < |line| && sz == RuneSize(line[i..]) && col == |lead| + i - from && col + sz > 75
    requires later == Cuts(line, i + sz, 1 + sz) && AscendingFrom(later, i, |line|) && Full(line, i, later, [SP])
    ensures cuts == Cuts(line, i, col) && AscendingFrom(cuts, from, |line|) && Full(line, from, cuts, lead)
  {
    cuts := Cuts(line, i, col);
    CutsAscend(line, i, col);
    CutsCons(line, i, col);
    FullCut(line, from, cuts, lead);
  }

  /** A line is folded no earlier than it must be: at each cut the sequence that
      follows would have gone past the seventy-fifth octet, so that every physical
      line but the last has at least 72. */
  lemma {:induction false} FoldedLate(line: Bytes, k: nat)
    requires k < |LinePieces(line)| - 1
    ensures |LinePieces(line)| == |Cuts(line, 0, 0)| + 1 && Cuts(line, 0, 0)[k] < |line|
    ensures |LinePieces(line)[k]| + RuneSize(line[Cuts(line, 0, 0)[k]..]) > 75
    ensures |LinePieces(line)[k]| >= 72
  {
    var cuts := FullFrom(line, 0, 0, [], 0);
  }

  lemma {:induction false} LaterMarked(line: Bytes, from: nat, cuts: seq<nat>, lead: Bytes, k: nat)
    requires from <= |line| && AscendingFrom(cuts, from, |line|) && k < |Pieces(line, from, cuts, lead)|
    requires k > 0 || (lead != [] && lead[0] == 32)
    ensures Pieces(line, from, cuts, lead)[k] != [] && Pieces(line, from, cuts, lead)[k][0] == 32
    decreases |cuts|
  {
    if k > 0 { LaterMarked(line, cuts[0], cuts[1..], [SP], k - 1); }
  }

  /** Every continuation line begins with a space. */
  lemma {:induction false} ContinuationMarked(line: Bytes, k: nat)
    requires 0 < k < |LinePieces(line)|
    ensures LinePieces(line)[k] != [] && LinePieces(line)[k][0] == 32
  {
    CutsAscend(line, 0, 0);
    LaterMarked(line, 0, Cuts(line, 0, 0), [], k);
  }

  // ----- No sequence is split -----

  lemma {:induction false} LeadIsNoTail(s: Bytes)
    requires StartsSequence(s)
    ensures !Tail(s[0])
  {}

  lemma {:induction false} RuneTails(s: Bytes, k: nat)
    requires s != [] && 1 <= k < RuneSize(s)
    ensures Tail(s[k])
  {}

  /** Whatever the bytes of a line, no fold falls inside a well-formed UTF-8
      sequence of it. */
  lemma {:induction false} NoSequenceSplit(line: Bytes, i: nat, col: nat, p: nat)
    requires i <= |line| && p < |line| && StartsSequence(line[p..])
    requires p >= i || p + Announced(line[p]) <= i
    ensures forall k :: 0 <= k < |Cuts(line, i, col)| ==>
      Cuts(line, i, col)[k] <= p || Cuts(line, i, col)[k] >= p + Announced(line[p])
    decreases |line| - i
  {
    if i < |line| {
      var sz := RuneSize(line[i..]);
      assert line[p..][0] == line[p];
      if p > i && p < i + sz {
        RuneTails(line[i..], p - i);
        LeadIsNoTail(line[p..]);
      }
      NoSequenceSplit(line, i + sz, if col + sz > LIMIT then 1 + sz else col + sz, p);
    }
  }

  // ----- Lines without CRLF -----

  ghost predicate Whole(l: Bytes) {
    forall i :: 0 <= i < |l| - 1 ==> !(l[i] == CR && l[i + 1] == LF)
  }

  ghost predicate AllWhole(ls: seq<Bytes>) {
    forall k :: 0 <= k < |ls| ==> Whole(ls[k])
  }

  lemma {:induction false} LinesWhole(s: Bytes)
    ensures AllWhole(Lines(s))
    ensures s != [] && !StartsCrlf(s) ==> Lines(s)[0] != [] && Lines(s)[0][0] == s[0]
    ensures s == [] || StartsCrlf(s) ==> Lines(s)[0] == []
  {
    if s != [] {
      if StartsCrlf(s) {
        LinesWhole(s[2..]);
      } else {
        LinesWhole(s[1..]);
        var rest := Lines(s[1..]);
        assert Whole([s[0]] + rest[0]);
      }
    }
  }

  /** Joining the lines again gives the data and one CRLF. */
  lemma {:induction false} TerminatedLines(s: Bytes)
    ensures Terminated(Lines(s)) == s + CRLF
  {
    if s == [] {
      var one: seq<Bytes> := [[]];
      assert one[1..] == [];
    } else if StartsCrlf(s) {
      TerminatedLines(s[2..]);
      TerminatedBlank(Lines(s[2..]));
      CrlfFirst(s);
    } else {
      TerminatedLines(s[1..]);
      TerminatedLonger(s[0], Lines(s[1..]));
      ConsEnd(s);
    }
  }

  lemma {:induction false} TerminatedBlank(ls: seq<Bytes>)
    ensures Terminated([[]] + ls) == CRLF + Terminated(ls)
  {
    assert ([[]] + ls)[1..] == ls;
  }

  lemma {:induction false} CrlfFirst(s: Bytes)
    requires StartsCrlf(s)
    ensures CRLF + (s[2..] + CRLF) == s + CRLF
  {}

  lemma {:induction false} TerminatedLonger(b: Byte, ls: seq<Bytes>)
    requires ls != []
    ensures Terminated([[b] + ls[0]] + ls[1..]) == [b] + Terminated(ls)
  {
    var longer := [[b] + ls[0]] + ls[1..];
    assert longer[1..] == ls[1..] && longer[0] == [b] + ls[0];
    assert ([b] + ls[0]) + CRLF + Terminated(ls[1..]) == [b] + (ls[0] + CRLF + Terminated(ls[1..]));
  }

  lemma {:induction false} ConsEnd(s: Bytes)
    requires s != []
    ensures [s[0]] + (s[1..] + CRLF) == s + CRLF
  {}

  /** Splitting after a whole line finds it. */
  lemma {:induction false} LinesOfLine(l: Bytes, rest: Bytes)
    requires Whole(l)
    ensures Lines(l + CRLF + rest) == [l] + Lines(rest)
  {
    var s := l + CRLF + rest;
    if l == [] {
      assert s[2..] == rest;
    } else {
      assert s[1..] == l[1..] + CRLF + rest;
      assert !StartsCrlf(s) by { if |l| > 1 { assert !(l[0] == CR && l[1] == LF); } }
      LinesOfLine(l[1..], rest);
      assert [l[0]] + l[1..] == l;
    }
  }

  lemma {:induction false} LinesOfTerminated(ls: seq<Bytes>)
    requires AllWhole(ls)
    ensures Lines(Terminated(ls)) == ls + [[]]
  {
    if ls != [] {
      LinesOfTerminated(ls[1..]);
      LinesOfLine(ls[0], Terminated(ls[1..]));
      assert ls == [ls[0]] + ls[1..];
    }
  }

  lemma {:induction false} TerminatedConcat(a: seq<Bytes>, b: seq<Bytes>)
    ensures Terminated(a + b) == Terminated(a) + Terminated(b)
  {
    if a == [] {
      assert a + b == b;
    } else {
      TerminatedConcat(a[1..], b);
      assert (a + b)[1..] == a[1..] + b;
      Reassociate(a[0] + CRLF, Terminated(a[1..]), Terminated(b));
    }
  }

  // ----- The physical lines of the output -----

  lemma {:induction false} PiecesWhole(line: Bytes, from: nat, cuts: seq<nat>, lead: Bytes)
    requires from <= |line| && AscendingFrom(cuts, from, |line|) && Whole(line) && (lead == [] || lead == [SP])
    ensures AllWhole(Pieces(line, from, cuts, lead))
    decreases |cuts|
  {
    if cuts != [] { PiecesWhole(line, cuts[0], cuts[1..], [SP]); }
  }

  function LinePieces(line: Bytes): (ps: seq<Bytes>)
    ensures ps != []
  {
    CutsAscend(line, 0, 0);
    Pieces(line, 0, Cuts(line, 0, 0), [])
  }

  lemma {:induction false} LinePiecesFacts(line: Bytes)
    requires Whole(line)
    ensures FoldedLine(line) + CRLF == Terminated(LinePieces(line))
    ensures Within(LinePieces(line)) && AllWhole(LinePieces(line))
    ensures |line| <= LIMIT ==> LinePieces(line) == [line]
  {
    FoldedIsFoldFrom(line);
    var cuts, written := FoldWritesPieces(line, 0, 0, [], 0);
    assert [] + line[0..0] + FoldFrom(line, 0, 0) == FoldFrom(line, 0, 0);
    CutsAscend(line, 0, 0);
    PiecesFit(line, 0, 0, []);
    PiecesWhole(line, 0, Cuts(line, 0, 0), []);
    if |line| <= LIMIT {
      ShortUncut(line, 0, 0);
      assert [] + line[0..] == line;
    }
  }

  function Physical(ls: seq<Bytes>): seq<Bytes> {
    if ls == [] then [] else LinePieces(ls[0]) + Physical(ls[1..])
  }

  lemma {:induction false} PhysicalFacts(ls: seq<Bytes>)
    requires AllWhole(ls)
    ensures FoldedLines(ls) == Terminated(Physical(ls))
    ensures Within(Physical(ls)) && AllWhole(Physical(ls)) && (ls != [] ==> Physical(ls) != [])
    ensures Within(ls) ==> Physical(ls) == ls
  {
    if ls != [] {
      LinePiecesFacts(ls[0]);
      PhysicalFacts(ls[1..]);
      TerminatedConcat(LinePieces(ls[0]), Physical(ls[1..]));
      assert ls == [ls[0]] + ls[1..];
    }
  }

  // ----- Trimming trailing blank lines -----

  /** The last line is empty and not alone. */
  predicate LastBlank(ls: seq<Bytes>) {
    |ls| >= 2 && ls[|ls| - 1] == []
  }

  /** The lines without blank ones at the end, except the first. */
  function Kept(ls: seq<Bytes>): seq<Bytes>
    decreases |ls|
  {
    if LastBlank(ls) then Kept(ls[..|ls| - 1]) else ls
  }

  lemma {:induction false} KeptFacts(ls: seq<Bytes>)
    ensures Kept(ls) <= ls && (ls != [] ==> Kept(ls) != [])
    decreases |ls|
  {
    if LastBlank(ls) { KeptFacts(ls[..|ls| - 1]); }
  }

  lemma {:induction false} TerminatedSnoc(ls: seq<Bytes>, l: Bytes)
    ensures Terminated(ls + [l]) == Terminated(ls) + l + CRLF
  {
    TerminatedConcat(ls, [l]);
    var one: seq<Bytes> := [l];
    assert one[1..] == [];
    assert Terminated(one) == l + CRLF;
    Reassociate(Terminated(ls), l, CRLF);
  }

  lemma {:induction false} TerminatedEnds(ls: seq<Bytes>)
    requires ls != []
    ensures var t := Terminated(ls); |t| >= 2 && t[|t| - 2..] == CRLF
  {
    var n := |ls| - 1;
    assert ls == ls[..n] + [ls[n]];
    TerminatedSnoc(ls[..n], ls[n]);
  }

  lemma {:induction false} BlankEnd(before: Bytes, last: Bytes)
    requires Whole(last) && (before == [] || (|before| >= 2 && before[|before| - 2..] == CRLF))
    ensures EndsBlank(before + last + CRLF) <==> before != [] && last == []
  {
    var t := before + last + CRLF;
    if |last| >= 2 {
      assert t[|t| - 4] == last[|last| - 2] && t[|t| - 3] == last[|last| - 1];
      assert !(last[|last| - 2] == CR && last[|last| - 1] == LF);
      assert t[|t| - 4..][0] == t[|t| - 4] && t[|t| - 4..][1] == t[|t| - 3];
    } else if |last| == 1 && before != [] {
      assert t[|t| - 4] == before[|before| - 1] == before[|before| - 2..][1] == LF;
      assert t[|t| - 4..][0] == t[|t| - 4];
    } else if last == [] && before != [] {
      assert t[|t| - 4..] == before[|before| - 2..] + CRLF;
    }
  }

  /** Terminated lines end in a blank one exactly when the last line is blank. */
  lemma {:induction false} EndsBlankIff(ls: seq<Bytes>)
    requires AllWhole(ls) && ls != []
    ensures EndsBlank(Terminated(ls)) <==> LastBlank(ls)
  {
    var n := |ls| - 1;
    assert ls == ls[..n] + [ls[n]];
    EndsBlankSnoc(ls[..n], ls[n]);
  }

  lemma {:induction false} EndsBlankSnoc(init: seq<Bytes>, last: Bytes)
    requires Whole(last)
    ensures EndsBlank(Terminated(init + [last])) <==> init != [] && last == []
  {
    TerminatedSnoc(init, last);
    if init != [] { TerminatedEnds(init); }
    BlankEnd(Terminated(init), last);
  }

  lemma {:induction false} TrimmedTerminated(ls: seq<Bytes>)
    requires AllWhole(ls) && ls != []
    ensures Trimmed(Terminated(ls)) == Terminated(Kept(ls))
    decreases |ls|
  {
    EndsBlankIff(ls);
    if LastBlank(ls) {
      var n := |ls| - 1;
      assert ls == ls[..n] + [ls[n]];
      TerminatedSnoc(ls[..n], []);
      assert Terminated(ls)[..|Terminated(ls)| - 2] == Terminated(ls[..n]);
      TrimmedTerminated(ls[..n]);
    }
  }

  /** The output is its physical lines, each within the limit, terminated. */
  lemma {:induction false} FoldedIsPhysical(data: Bytes)
    ensures var ps := Kept(Physical(Lines(data)));
      Folded(data) == Terminated(ps) && Within(ps) && AllWhole(ps) && ps != [] && !EndsBlank(Folded(data))
  {
    LinesWhole(data);
    PhysicalFacts(Lines(data));
    KeptIsTrimmed(Physical(Lines(data)));
  }

  lemma {:induction false} KeptIsTrimmed(all: seq<Bytes>)
    requires Within(all) && AllWhole(all) && all != []
    ensures Trimmed(Terminated(all)) == Terminated(Kept(all)) && !EndsBlank(Trimmed(Terminated(all)))
    ensures Within(Kept(all)) && AllWhole(Kept(all)) && Kept(all) != []
  {
    TrimmedTerminated(all);
    KeptFacts(all);
    TrimmedStops(Terminated(all));
  }

  lemma {:induction false} TrimmedStops(s: Bytes)
    ensures !EndsBlank(Trimmed(s))
    decreases |s|
  {
    if EndsBlank(s) { TrimmedStops(s[..|s| - 2]); }
  }

  /** Every physical line of the output has at most 75 octets. */
  lemma {:induction false} PhysicalLinesFit(data: Bytes, k: nat)
    requires k < |Lines(Folded(data))|
    ensures |Lines(Folded(data))[k]| <= LIMIT
  {
    FoldedIsPhysical(data);
    LinesOfTerminated(Kept(Physical(Lines(data))));
  }

  /** Lines within the limit, with no blank one to trim, are left as they are. */
  lemma {:induction false} ShortLinesFixed(ps: seq<Bytes>)
    requires AllWhole(ps) && Within(ps) && ps != [] && !EndsBlank(Terminated(ps))
    ensures Folded(Terminated(ps)) == Terminated(ps)
  {
    LinesOfTerminated(ps);
    EndsBlankIff(ps);
    BlankAppended(ps);
    PhysicalFacts(ps + [[]]);
    TrimmedTerminated(ps + [[]]);
  }

  lemma {:induction false} BlankAppended(ps: seq<Bytes>)
    requires AllWhole(ps) && Within(ps) && ps != [] && !LastBlank(ps)
    ensures AllWhole(ps + [[]]) && Within(ps + [[]]) && Kept(ps + [[]]) == ps
  {
    var again := ps + [[]];
    assert forall k :: 0 <= k < |again| ==> k == |ps| || again[k] == ps[k];
    assert again[..|again| - 1] == ps;
  }

  /** Folding what is folded changes nothing. */
  lemma {:induction false} FoldIdempotent(data: Bytes)
    ensures Folded(Folded(data)) == Folded(data)
  {
    FoldedIsPhysical(data);
    ShortLinesFixed(Kept(Physical(Lines(data))));
  }

  // ----- Unfolding -----

  predicate StartsFold(s: Bytes) {
    |s| >= 3 && s[0] == CR && s[1] == LF && s[2] == SP
  }

  /** Every CRLF followed by a space deleted, with the space. */
  function Unfolded(s: Bytes): Bytes {
    if s == [] then []
    else if StartsFold(s) then Unfolded(s[3..])
    else [s[0]] + Unfolded(s[1..])
  }

  /** Unfolding passes over a prefix in which no CRLF begins. */
  lemma {:induction false} UnfoldedPrefix(a: Bytes, b: Bytes)
    requires Whole(a) && !(a != [] && a[|a| - 1] == CR && b != [] && b[0] == LF)
    ensures Unfolded(a + b) == a + Unfolded(b)
  {
    if a == [] {
      assert a + b == b;
    } else {
      assert (a + b)[1..] == a[1..] + b;
      assert !StartsFold(a + b) by { if |a| > 1 { assert !(a[0] == CR && a[1] == LF); } }
      UnfoldedPrefix(a[1..], b);
      assert [a[0]] + a[1..] == a;
      Reassociate([a[0]], a[1..], Unfolded(b));
    }
  }

  lemma {:induction false} WholeSlice(l: Bytes, i: nat, j: nat)
    requires Whole(l) && i <= j <= |l|
    ensures Whole(l[i..j])
  {}

  lemma {:induction false} FoldMarkDropped(chunk: Bytes, tail: Bytes)
    ensures Unfolded(CRLF + [SP] + chunk + tail) == Unfolded(chunk + tail)
  {
    var out := CRLF + [SP] + chunk + tail;
    assert out[3..] == chunk + tail;
  }

  lemma {:induction false} FoldFromStarts(line: Bytes, i: nat, col: nat)
    requires i < |line|
    ensures FoldFrom(line, i, col) != [] && FoldFrom(line, i, col)[0] == if col + RuneSize(line[i..]) > LIMIT then CR else line[i]
  {}

  /** What the folding loop writes from i on unfolds to the rest of the line. */
  ghost predicate Unfolds(line: Bytes, i: nat, col: nat, rest: Bytes)
    requires i <= |line|
  {
    Unfolded(FoldFrom(line, i, col) + CRLF + rest) == line[i..] + Unfolded(CRLF + rest)
  }

  lemma {:induction false} UnfoldsCut(line: Bytes, i: nat, col: nat, rest: Bytes)
    requires Whole(line) && i < |line| && col + RuneSize(line[i..]) > LIMIT
    requires Unfolds(line, i + RuneSize(line[i..]), 1 + RuneSize(line[i..]), rest)
    ensures Unfolds(line, i, col, rest)
  {
    var sz := RuneSize(line[i..]);
    var chunk, after := line[i..i + sz], FoldFrom(line, i + sz, 1 + sz);
    if i + sz < |line| { FoldFromStarts(line, i + sz, 1 + sz); }
    ChunkUnfolds(line, i, sz, after + CRLF + rest, Unfolded(CRLF + rest));
    FoldMarkDropped(chunk, after + CRLF + rest);
    assert FoldFrom(line, i, col) == CRLF + [SP] + chunk + after;
    FoldAssociates(CRLF + [SP] + chunk, after, rest);
  }

  lemma {:induction false} FoldAssociates(before: Bytes, after: Bytes, rest: Bytes)
    ensures (before + after) + CRLF + rest == before + (after + CRLF + rest)
  {}

  lemma {:induction false} UnfoldsOn(line: Bytes, i: nat, col: nat, rest: Bytes)
    requires Whole(line) && i < |line| && col + RuneSize(line[i..]) <= LIMIT
    requires Unfolds(line, i + RuneSize(line[i..]), col + RuneSize(line[i..]), rest)
    ensures Unfolds(line, i, col, rest)
  {
    var sz := RuneSize(line[i..]);
    var chunk, after := line[i..i + sz], FoldFrom(line, i + sz, col + sz);
    if i + sz < |line| { FoldFromStarts(line, i + sz, col + sz); }
    ChunkUnfolds(line, i, sz, after + CRLF + rest, Unfolded(CRLF + rest));
    assert FoldFrom(line, i, col) == chunk + after;
    FoldAssociates(chunk, after, rest);
  }

  lemma {:induction false} FoldFromUnfolds(line: Bytes, i: nat, col: nat, rest: Bytes)
    requires Whole(line) && i <= |line|
    ensures Unfolds(line, i, col, rest)
    decreases |line| - i
  {
    if i == |line| {
      assert FoldFrom(line, i, col) + CRLF + rest == CRLF + rest && line[i..] == [];
    } else if col + RuneSize(line[i..]) > LIMIT {
      FoldFromUnfolds(line, i + RuneSize(line[i..]), 1 + RuneSize(line[i..]), rest);
      UnfoldsCut(line, i, col, rest);
    } else {
      FoldFromUnfolds(line, i + RuneSize(line[i..]), col + RuneSize(line[i..]), rest);
      UnfoldsOn(line, i, col, rest);
    }
  }

  lemma {:induction false} ChunkUnfolds(line: Bytes, i: nat, sz: nat, tail: Bytes, end: Bytes)
    requires Whole(line) && 1 <= sz && i + sz <= |line|
    requires tail != [] && (tail[0] == CR || (i + sz < |line| && tail[0] == line[i + sz]))
    requires Unfolded(tail) == line[i + sz..] + end
    ensures Unfolded(line[i..i + sz] + tail) == line[i..] + end
  {
    var chunk := line[i..i + sz];
    WholeSlice(line, i, i + sz);
    SliceEnd(line, i, i + sz);
    UnfoldedPrefix(chunk, tail);
    Rejoined(line, i, i + sz, end);
  }

  lemma {:induction false} SliceEnd(line: Bytes, i: nat, j: nat)
    requires Whole(line) && i < j <= |line|
    ensures line[i..j][j - i - 1] == line[j - 1]
    ensures j < |line| ==> !(line[j - 1] == CR && line[j] == LF)
  {}

  lemma {:induction false} Rejoined(line: Bytes, i: nat, j: nat, end: Bytes)
    requires i <= j <= |line|
    ensures line[i..j] + (line[j..] + end) == line[i..] + end
  {
    assert line[i..j] + line[j..] == line[i..];
    Reassociate(line[i..j], line[j..], end);
  }

  lemma {:induction false} FoldedLineUnfolds(line: Bytes, rest: Bytes)
    requires Whole(line)
    ensures Unfolded(FoldedLine(line) + CRLF + rest) == line + Unfolded(CRLF + rest)
    ensures line != [] ==> FoldedLine(line) != [] && FoldedLine(line)[0] == line[0]
  {
    FoldedIsFoldFrom(line);
    FoldFromUnfolds(line, 0, 0, rest);
    if line != [] { FoldFromStarts(line, 0, 0); }
    assert line[0..] == line;
  }

  /** What follows a CRLF loses its fold mark. */
  lemma {:induction false} MarkBehind(s: Bytes, line: Bytes, tail: Bytes)
    requires s != [] && s[0] == SP && line != [] && Unfolded(s) == line + tail
    ensures Unfolded(CRLF + s) == line[1..] + tail
  {
    assert (CRLF + s)[3..] == s[1..];
    assert Unfolded(s)[1..] == Unfolded(s[1..]);
    assert (line + tail)[1..] == line[1..] + tail;
  }

  lemma {:induction false} NoMarkBehind(s: Bytes, line: Bytes, tail: Bytes)
    requires s != [] && s[0] != SP && Unfolded(s) == line + tail
    ensures Unfolded(CRLF + s) == CRLF + line + tail
  {
    KeepsOctet(LF, s);
    KeepsOctet(CR, [LF] + s);
    AsTwo(s);
    AsTwo(line + tail);
    Reassociate(CRLF, line, tail);
  }

  lemma {:induction false} KeepsOctet(b: Byte, s: Bytes)
    requires !StartsFold([b] + s)
    ensures Unfolded([b] + s) == [b] + Unfolded(s)
  {
    assert ([b] + s)[1..] == s;
  }

  lemma {:induction false} AsTwo(s: Bytes)
    ensures CRLF + s == [CR] + ([LF] + s)
  {}

  /** A line behind a CRLF unfolds onto its predecessor if it starts with a space. */
  lemma {:induction false} Behind(s: Bytes, line: Bytes, rest: Bytes)
    requires s != [] && s[0] == (if line == [] then CR else line[0]) && Unfolded(s) == line + Unfolded(CRLF + rest)
    ensures Unfolded(CRLF + s) ==
      if line != [] && line[0] == SP then line[1..] + Unfolded(CRLF + rest) else CRLF + line + Unfolded(CRLF + rest)
  {
    if line != [] && line[0] == SP {
      MarkBehind(s, line, Unfolded(CRLF + rest));
    } else {
      NoMarkBehind(s, line, Unfolded(CRLF + rest));
    }
  }

  lemma {:induction false} UnfoldedBehind(line: Bytes, rest: Bytes)
    requires Whole(line)
    ensures Unfolded(CRLF + (line + CRLF + rest)) ==
      if line != [] && line[0] == SP then line[1..] + Unfolded(CRLF + rest) else CRLF + line + Unfolded(CRLF + rest)
  {
    UnfoldedPrefix(line, CRLF + rest);
    assert line + CRLF + rest == line + (CRLF + rest);
    Behind(line + CRLF + rest, line, rest);
  }

  lemma {:induction false} FoldedBehind(line: Bytes, rest: Bytes)
    requires Whole(line)
    ensures Unfolded(CRLF + (FoldedLine(line) + CRLF + rest)) ==
      if line != [] && line[0] == SP then line[1..] + Unfolded(CRLF + rest) else CRLF + line + Unfolded(CRLF + rest)
  {
    FoldedLineUnfolds(line, rest);
    Behind(FoldedLine(line) + CRLF + rest, line, rest);
  }

  lemma {:induction false} LinesUnfoldAlike(ls: seq<Bytes>)
    requires AllWhole(ls)
    ensures Unfolded(CRLF + FoldedLines(ls)) == Unfolded(CRLF + Terminated(ls))
  {
    if ls != [] {
      LinesUnfoldAlike(ls[1..]);
      FoldedBehind(ls[0], FoldedLines(ls[1..]));
      UnfoldedBehind(ls[0], Terminated(ls[1..]));
    }
  }

  lemma {:induction false} ShiftLast(x: Bytes, y: Bytes, z: Bytes, w: Bytes)
    ensures x + (y + z + w) == (x + y) + z + w
  {}

  lemma {:induction false} FoldedLinesSnoc(ls: seq<Bytes>, l: Bytes)
    ensures FoldedLines(ls + [l]) == FoldedLines(ls) + FoldedLine(l) + CRLF
  {
    if ls == [] {
      var one: seq<Bytes> := [l];
      assert ls + [l] == one && one[1..] == [];
    } else {
      FoldedLinesSnoc(ls[1..], l);
      assert (ls + [l])[1..] == ls[1..] + [l];
      ShiftLast(FoldedLine(ls[0]) + CRLF, FoldedLines(ls[1..]), FoldedLine(l), CRLF);
    }
  }

  lemma {:induction false} FoldedEndsBlankIff(ls: seq<Bytes>)
    requires AllWhole(ls) && ls != []
    ensures EndsBlank(FoldedLines(ls)) <==> LastBlank(ls)
  {
    PhysicalFacts(ls);
    EndsBlankIff(Physical(ls));
    LastPiece(ls);
  }

  lemma {:induction false} FoldedLinesKept(ls: seq<Bytes>)
    requires AllWhole(ls) && ls != []
    ensures Trimmed(FoldedLines(ls)) == FoldedLines(Kept(ls))
    decreases |ls|
  {
    FoldedEndsBlankIff(ls);
    if LastBlank(ls) {
      var init := ls[..|ls| - 1];
      FoldedLinesKept(init);
      FoldedBlankLast(ls);
      DropTwo(FoldedLines(init));
    }
  }

  lemma {:induction false} FoldedBlankLast(ls: seq<Bytes>)
    requires LastBlank(ls)
    ensures FoldedLines(ls) == FoldedLines(ls[..|ls| - 1]) + CRLF
  {
    assert ls == ls[..|ls| - 1] + [[]];
    FoldedLinesSnoc(ls[..|ls| - 1], []);
  }

  lemma {:induction false} DropTwo(s: Bytes)
    ensures (s + CRLF)[..|s + CRLF| - 2] == s
  {}

  /** Only a line that is not cut can leave a blank piece at the end. */
  ghost predicate EndsFull(ps: seq<Bytes>, only: Bytes) {
    ps == [only] || (ps != [] && ps[|ps| - 1] != [])
  }

  lemma {:induction false} PiecesLast(line: Bytes, from: nat, i: nat, lead: Bytes)
    requires from <= i <= |line| && AscendingFrom(Cuts(line, i, |lead| + i - from), from, |line|)
    ensures EndsFull(Pieces(line, from, Cuts(line, i, |lead| + i - from), lead), lead + line[from..])
    decreases |line| - i
  {
    var col := |lead| + i - from;
    if i < |line| {
      var sz := RuneSize(line[i..]);
      if col + sz > LIMIT {
        CutsCons(line, i, col);
        PiecesLast(line, i, i + sz, [SP]);
        PiecesCut(line, from, Cuts(line, i, col), lead);
      } else {
        PiecesLast(line, from, i + sz, lead);
      }
    }
  }

  lemma {:induction false} PiecesCut(line: Bytes, from: nat, cuts: seq<nat>, lead: Bytes)
    requires from <= |line| && AscendingFrom(cuts, from, |line|) && cuts != [] && AscendingFrom(cuts[1..], cuts[0], |line|)
    requires EndsFull(Pieces(line, cuts[0], cuts[1..], [SP]), [SP] + line[cuts[0]..])
    ensures EndsFull(Pieces(line, from, cuts, lead), lead + line[from..])
  {
    var later := Pieces(line, cuts[0], cuts[1..], [SP]);
    assert later[|later| - 1] != [];
    assert Pieces(line, from, cuts, lead) == [lead + line[from..cuts[0]]] + later;
  }

  /** The last physical line is blank exactly when the last line is. */
  lemma {:induction false} LastPiece(ls: seq<Bytes>)
    requires ls != []
    ensures LastBlank(Physical(ls)) <==> LastBlank(ls)
  {
    LastPieceOf(ls);
    var ps := Physical(ls);
    if |ls| >= 2 {
      LastPieceOf(ls[1..]);
      assert |ps| == |LinePieces(ls[0])| + |Physical(ls[1..])|;
    } else {
      assert ls[1..] == [] && ps == LinePieces(ls[0]) + [];
      if ls[0] == [] { assert LinePieces(ls[0]) == [[]] by { assert Cuts([], 0, 0) == []; } }
    }
  }

  lemma {:induction false} LastPieceOfLine(line: Bytes)
    ensures var ps := LinePieces(line); ps[|ps| - 1] == [] <==> line == []
  {
    assert [] + line[0..] == line;
    if line == [] {
      assert LinePieces(line) == [line];
    } else {
      CutsAscend(line, 0, 0);
      PiecesLast(line, 0, 0, []);
      FullAtEnd(LinePieces(line), line);
    }
  }

  lemma {:induction false} FullAtEnd(ps: seq<Bytes>, only: Bytes)
    requires EndsFull(ps, only) && only != []
    ensures ps[|ps| - 1] != []
  {}

  lemma {:induction false} LastPieceOf(ls: seq<Bytes>)
    requires ls != []
    ensures var ps := Physical(ls); ps != [] && (ps[|ps| - 1] == [] <==> ls[|ls| - 1] == [])
  {
    if |ls| == 1 {
      assert ls[1..] == [] && Physical(ls) == LinePieces(ls[0]) + [];
      LastPieceOfLine(ls[0]);
    } else {
      LastPieceOf(ls[1..]);
    }
  }

  lemma {:induction false} KeptUnfoldAlike(kept: seq<Bytes>)
    requires AllWhole(kept) && kept != []
    ensures Unfolded(FoldedLines(kept)) == Unfolded(Terminated(kept))
  {
    var first, rest := kept[0], kept[1..];
    FoldedLineUnfolds(first, FoldedLines(rest));
    UnfoldedPrefix(first, CRLF + Terminated(rest));
    assert first + CRLF + Terminated(rest) == first + (CRLF + Terminated(rest));
    LinesUnfoldAlike(rest);
  }

  /** Unfolding inverts folding, up to the trimming of blank lines at the end. */
  lemma {:induction false} UnfoldInvertsFold(data: Bytes)
    ensures Unfolded(Folded(data)) == Unfolded(Trimmed(data + CRLF))
  {
    var ls := Lines(data);
    LinesWhole(data);
    FoldedLinesKept(ls);
    TerminatedLines(data);
    TrimmedTerminated(ls);
    KeptFacts(ls);
    KeptUnfoldAlike(Kept(ls));
  }

  /** The data ends in exactly one CRLF. */
  predicate EndsOnce(data: Bytes) {
    |data| >= 2 && data[|data| - 2..] == CRLF && !EndsBlank(data)
  }

  /** No line after the first starts with a space. */
  ghost predicate NoFoldMarks(data: Bytes) {
    forall i :: 0 <= i < |data| ==> !StartsFold(data[i..])
  }

  lemma {:induction false} UnfoldedShorter(s: Bytes)
    ensures |Unfolded(s)| <= |s|
    ensures Unfolded(s) == s <==> NoFoldMarks(s)
  {
    if s != [] {
      if StartsFold(s) {
        UnfoldedShorter(s[3..]);
        assert s[0..] == s;
      } else {
        UnfoldedShorter(s[1..]);
        assert s == [s[0]] + s[1..];
        assert forall i :: 1 <= i < |s| ==> s[i..] == s[1..][i - 1..];
        assert s[0..] == s;
      }
    }
  }

  lemma {:induction false} UnfoldedEnds(s: Bytes)
    requires |s| >= 2 && s[|s| - 2..] == CRLF
    ensures var u := Unfolded(s); |u| >= 2 && u[|u| - 2..] == CRLF
  {
    if |s| == 2 {
      assert s == CRLF && s[1..] == [LF] && s[1..][1..] == [];
      assert Unfolded(s[1..]) == [LF] + Unfolded(s[1..][1..]);
    } else if StartsFold(s) {
      assert |s| >= 5;
      assert s[3..][|s| - 5..] == s[|s| - 2..];
      UnfoldedEnds(s[3..]);
    } else {
      assert s[1..][|s| - 3..] == s[|s| - 2..];
      UnfoldedEnds(s[1..]);
      EndsBehind(s[0], Unfolded(s[1..]));
    }
  }

  lemma {:induction false} EndsBehind(b: Byte, u: Bytes)
    requires |u| >= 2 && u[|u| - 2..] == CRLF
    ensures ([b] + u)[|[b] + u| - 2..] == CRLF
  {
    assert ([b] + u)[|u| - 1..] == u[|u| - 2..];
  }

  lemma {:induction false} TrimmedShorter(s: Bytes)
    ensures |Trimmed(s)| <= |s| && (EndsBlank(s) ==> |Trimmed(s)| <= |s| - 2)
    ensures |s| >= 2 && s[|s| - 2..] == CRLF ==> |Trimmed(s)| >= 2 && Trimmed(s)[|Trimmed(s)| - 2..] == CRLF
    decreases |s|
  {
    if EndsBlank(s) {
      assert s[..|s| - 2][|s| - 4..] == CRLF by { assert s[|s| - 4..][..2] == CRLF; assert s[|s| - 4..|s| - 2] == s[|s| - 4..][..2]; }
      TrimmedShorter(s[..|s| - 2]);
    }
  }

  /** The exact condition for a lossless round trip: the data ends in one CRLF and
      none of its lines but the first starts with a space. */
  lemma {:induction false} RoundTripIff(data: Bytes)
    ensures Unfolded(Folded(data)) == data <==> EndsOnce(data) && NoFoldMarks(data)
  {
    UnfoldInvertsFold(data);
    if |data| >= 2 && data[|data| - 2..] == CRLF {
      TrimmedOnce(data);
      UnchangedIff(data);
    } else {
      EndsAfter(data);
    }
  }

  lemma {:induction false} UnchangedIff(data: Bytes)
    ensures Unfolded(Trimmed(data)) == data <==> !EndsBlank(data) && NoFoldMarks(data)
  {
    UnfoldedShorter(Trimmed(data));
    TrimmedShorter(data);
  }

  lemma {:induction false} TrimmedOnce(data: Bytes)
    requires |data| >= 2 && data[|data| - 2..] == CRLF
    ensures Trimmed(data + CRLF) == Trimmed(data)
  {
    var longer := data + CRLF;
    assert longer[|longer| - 4..] == data[|data| - 2..] + CRLF;
    assert longer[..|longer| - 2] == data;
  }

  lemma {:induction false} EndsAfter(data: Bytes)
    ensures var u := Unfolded(Trimmed(data + CRLF)); |u| >= 2 && u[|u| - 2..] == CRLF
  {
    var longer := data + CRLF;
    assert longer[|longer| - 2..] == CRLF;
    TrimmedShorter(longer);
    UnfoldedEnds(Trimmed(longer));
  }
}
