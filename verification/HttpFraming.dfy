/**
 Chunked bodies as section 7.1 of RFC 9112 writes them, and what the analyzer makes of them.
 */
module HttpFraming {
  import opened Common
  import opened HttpLines
  import opened HttpSpec

  /** The number that hexadecimal digits of either case write after `acc`. */
  function ValueAfter(acc: nat, digits: seq<Byte>): nat
    requires forall i :: 0 <= i < |digits| ==> IsHex(digits[i])
    decreases |digits|
  {
    if digits == [] then acc else ValueAfter(acc * 16 + HexDigit(digits[0]), digits[1..])
  }

  /** A chunk: its size in hexadecimal, leading zeros allowed, its extensions and its data. */
  datatype Chunk = Chunk(digits: seq<Byte>, ext: seq<Byte>, data: seq<Byte>)

  ghost predicate Written(digits: seq<Byte>, ext: seq<Byte>) {
    && (forall i :: 0 <= i < |digits| ==> IsHex(digits[i]))
    && (forall i :: 0 <= i < |ext| ==> ext[i] != LF)
    && (ext != [] ==> !IsHex(ext[0]))
  }

  ghost predicate Proper(k: Chunk) {
    Written(k.digits, k.ext) && ValueAfter(0, k.digits) == |k.data| && 0 < |k.data| < TWO64 - 2
  }

  function CrLf(): seq<Byte> {
    [13, 10]
  }

  function SizeLine(digits: seq<Byte>, ext: seq<Byte>): seq<Byte> {
    digits + (ext + CrLf())
  }

  function Frame(k: Chunk): seq<Byte> {
    SizeLine(k.digits, k.ext) + (k.data + CrLf())
  }

  function Encode(chunks: seq<Chunk>): seq<Byte> {
    if chunks == [] then [] else Frame(chunks[0]) + Encode(chunks[1..])
  }

  function LineSize(digits: seq<Byte>, ext: seq<Byte>): nat {
    |digits| + |ext| + 2
  }

  function FrameSize(k: Chunk): nat {
    LineSize(k.digits, k.ext) + |k.data| + 2
  }

  /** The chunks the analyzer goes through: for each, where its data starts and its length. */
  datatype Trail = End | Via(pos: nat, len: nat, rest: Trail)

  function Passed(buf: seq<Byte>, m: Msg): Trail
    requires m.next <= |buf| && (InChunks(m.state) || m.state.Done?)
    decreases |buf| - m.next, Rank(m.state)
  {
    match m.state
    case ChunkSize =>
      var c := ParseChunkSize(buf, m);
      if c.None? then End else Passed(buf, c.value)
    case ChunkData =>
      var need := U64(m.chunkLen + 2);
      if |buf| - m.next < need then End
      else Via(m.next, m.chunkLen, Passed(buf, m.(next := m.next + need, state := ChunkSize)))
    case Done => End
  }

  ghost predicate Holds(buf: seq<Byte>, at: nat, s: seq<Byte>) {
    at + |s| <= |buf| && buf[at..at + |s|] == s
  }

  lemma HoldsParts(buf: seq<Byte>, at: nat, s: seq<Byte>, t: seq<Byte>)
    requires Holds(buf, at, s + t)
    ensures Holds(buf, at, s) && Holds(buf, at + |s|, t)
  {
    assert (s + t)[..|s|] == s && (s + t)[|s|..] == t;
  }

  lemma HoldsAt(buf: seq<Byte>, at: nat, s: seq<Byte>, i: nat)
    requires Holds(buf, at, s) && i < |s|
    ensures buf[at + i] == s[i]
  {
    assert buf[at..at + |s|][i] == buf[at + i];
  }

  // ---------------------------------------------------------------- one size line

  lemma WrapStep(acc: nat, d: nat)
    ensures U64(U64(acc) * 16 + d) == U64(acc * 16 + d)
  {
    var q := acc / 0x1_0000_0000_0000_0000;
    assert acc * 16 + d == U64(acc) * 16 + d + q * 16 * 0x1_0000_0000_0000_0000;
  }

  lemma {:induction false} HexReads(buf: seq<Byte>, p: nat, digits: seq<Byte>, acc: nat)
    requires Holds(buf, p, digits) && p + |digits| < |buf| && !IsHex(buf[p + |digits|])
    requires forall i :: 0 <= i < |digits| ==> IsHex(digits[i])
    ensures Hex(buf, p, U64(acc)) == (U64(ValueAfter(acc, digits)), p + |digits|)
    decreases |digits|
  {
    if digits == [] {
    } else {
      var d := HexDigit(digits[0]);
      HoldsAt(buf, p, digits, 0);
      assert [digits[0]] + digits[1..] == digits;
      HoldsParts(buf, p, [digits[0]], digits[1..]);
      WrapStep(acc, d);
      HexReads(buf, p + 1, digits[1..], acc * 16 + d);
    }
  }

  lemma NoNewline(buf: seq<Byte>, q: nat, ext: seq<Byte>, i: nat)
    requires Holds(buf, q, ext + CrLf()) && q <= i <= q + |ext|
    requires forall j :: 0 <= j < |ext| ==> ext[j] != LF
    ensures buf[i] != LF
  {
    HoldsAt(buf, q, ext + CrLf(), i - q);
  }

  /** The line ends at the first newline behind the extension. */
  lemma LineEnds(buf: seq<Byte>, q: nat, ext: seq<Byte>)
    requires Holds(buf, q, ext + CrLf()) && (ext != [] ==> !IsHex(ext[0]))
    requires forall i :: 0 <= i < |ext| ==> ext[i] != LF
    ensures q < |buf| && !IsHex(buf[q]) && Find(buf, q, LF) == q + |ext| + 1
  {
    HoldsAt(buf, q, ext + CrLf(), 0);
    HoldsAt(buf, q, ext + CrLf(), |ext| + 1);
    forall i | q <= i < q + |ext| + 1
      ensures buf[i] != LF
    {
      NoNewline(buf, q, ext, i);
    }
    FindIs(buf, q, LF, q + |ext| + 1);
  }

  /** A size line is read as its value in 64 bits, up to just past its newline. */
  lemma SizeLineReads(buf: seq<Byte>, p: nat, digits: seq<Byte>, ext: seq<Byte>)
    requires Written(digits, ext) && Holds(buf, p, SizeLine(digits, ext))
    ensures ChunkLine(buf, p) == Some((U64(ValueAfter(0, digits)), p + |SizeLine(digits, ext)|))
  {
    HoldsParts(buf, p, digits, ext + CrLf());
    LineEnds(buf, p + |digits|, ext);
    HexReads(buf, p, digits, 0);
  }

  /** The size is read right exactly when it fits in 64 bits. */
  lemma SizeReadExactly(buf: seq<Byte>, p: nat, digits: seq<Byte>, ext: seq<Byte>)
    requires Written(digits, ext) && Holds(buf, p, SizeLine(digits, ext))
    ensures ChunkLine(buf, p).Some?
    ensures ChunkLine(buf, p).value.0 == ValueAfter(0, digits) <==> ValueAfter(0, digits) < TWO64
  {
    SizeLineReads(buf, p, digits, ext);
  }

  lemma {:induction false} ZerosShift(acc: nat, n: nat)
    ensures ValueAfter(acc, seq(n, _ => 48)) == acc * Pow16(n)
    decreases n
  {
    if n > 0 {
      var s := seq(n, _ => 48 as Byte);
      assert s[1..] == seq(n - 1, _ => 48 as Byte);
      ZerosShift(acc * 16, n - 1);
    }
  }

  function Pow16(n: nat): nat {
    if n == 0 then 1 else 16 * Pow16(n - 1)
  }

  /** A one followed by sixteen zeros is read as the size that ends the message. */
  lemma SizeWraps(buf: seq<Byte>, ext: seq<Byte>)
    requires Written(seq(17, i => if i == 0 then 49 else 48), ext)
    requires Holds(buf, 0, SizeLine(seq(17, i => if i == 0 then 49 else 48), ext))
    ensures ChunkLine(buf, 0) == Some((0, LineSize(seq(17, i => if i == 0 then 49 else 48), ext)))
  {
    var digits := seq(17, i => if i == 0 then 49 else 48 as Byte);
    assert digits[1..] == seq(16, _ => 48 as Byte);
    ZerosShift(1, 16);
    assert Pow16(4) == 0x1_0000;
    assert Pow16(8) == 0x1_0000 * Pow16(4) by {
      assert Pow16(6) == 0x100 * Pow16(4);
    }
    assert Pow16(12) == 0x1_0000 * Pow16(8) by {
      assert Pow16(10) == 0x100 * Pow16(8);
    }
    assert Pow16(16) == 0x1_0000 * Pow16(12) by {
      assert Pow16(14) == 0x100 * Pow16(12);
    }
    SizeLineReads(buf, 0, digits, ext);
  }

  // ---------------------------------------------------------------- framing

  /** The message past a chunk of `n` bytes whose data starts at `pos`. */
  function Past(m: Msg, pos: nat, n: nat): Msg {
    m.(chunkLen := n, next := pos + n + 2)
  }

  lemma DataPassed(buf: seq<Byte>, m: Msg, c: Msg, pos: nat, n: nat)
    requires m.state.ChunkSize? && c == m.(chunkLen := n, next := pos, state := ChunkData)
    requires 0 < n < TWO64 - 2 && pos + n + 2 <= |buf|
    ensures Chunks(buf, c) == Chunks(buf, Past(m, pos, n))
    ensures Passed(buf, c) == Via(pos, n, Passed(buf, Past(m, pos, n)))
  {
    assert c.(next := c.next + U64(n + 2), state := ChunkSize) == Past(m, pos, n);
  }

  lemma OneChunk(buf: seq<Byte>, m: Msg, pos: nat, n: nat)
    requires m.state.ChunkSize? && m.next <= |buf| && ChunkLine(buf, m.next) == Some((n, pos))
    requires 0 < n < TWO64 - 2 && pos + n + 2 <= |buf|
    ensures Chunks(buf, m) == Chunks(buf, Past(m, pos, n))
    ensures Passed(buf, m) == Via(pos, n, Passed(buf, Past(m, pos, n)))
  {
    var c := m.(chunkLen := n, next := pos, state := ChunkData);
    assert ParseChunkSize(buf, m) == Some(c);
    DataPassed(buf, m, c, pos, n);
  }

  /** The message past the last size line. */
  function Closed(m: Msg, end: nat): Msg {
    m.(state := Done, chunkLen := 0, next := end)
  }

  lemma LastLine(buf: seq<Byte>, m: Msg, end: nat)
    requires m.state.ChunkSize? && m.next <= |buf| && ChunkLine(buf, m.next) == Some((0, end))
    ensures Chunks(buf, m) == (Closed(m, end), Complete) && Passed(buf, m) == End
  {
    assert ParseChunkSize(buf, m) == Some(Closed(m, end));
  }

  /** The buffer holds the size line, data and line end of `k` at `at`. */
  ghost predicate Framed(buf: seq<Byte>, at: nat, k: Chunk) {
    Proper(k) && Holds(buf, at, Frame(k))
  }

  lemma FrameParts(buf: seq<Byte>, at: nat, k: Chunk)
    requires Holds(buf, at, Frame(k))
    ensures Holds(buf, at, SizeLine(k.digits, k.ext)) && Holds(buf, at + LineSize(k.digits, k.ext), k.data)
    ensures at + FrameSize(k) <= |buf|
  {
    var line, body := SizeLine(k.digits, k.ext), k.data + CrLf();
    HoldsParts(buf, at, line, body);
    HoldsParts(buf, at + |line|, k.data, CrLf());
  }

  lemma FrameReads(buf: seq<Byte>, at: nat, k: Chunk)
    requires Framed(buf, at, k)
    ensures at + FrameSize(k) <= |buf|
    ensures ChunkLine(buf, at) == Some((|k.data|, at + LineSize(k.digits, k.ext)))
  {
    FrameParts(buf, at, k);
    SizeLineReads(buf, at, k.digits, k.ext);
  }

  /** The size lines from `at` on announce these chunks, whose data follow them, and then a last
      line that ends at `end`. */
  ghost predicate Announced(buf: seq<Byte>, at: nat, chunks: seq<Chunk>, end: nat)
    decreases |chunks|
  {
    at <= |buf| &&
    if chunks == [] then ChunkLine(buf, at) == Some((0, end))
    else
      var k := chunks[0];
      var pos := at + LineSize(k.digits, k.ext);
      && ChunkLine(buf, at) == Some((|k.data|, pos)) && 0 < |k.data| < TWO64 - 2 && Holds(buf, pos, k.data)
      && Announced(buf, pos + |k.data| + 2, chunks[1..], end)
  }

  /** The trail goes through the data of exactly these chunks, in order. */
  ghost predicate Carries(buf: seq<Byte>, trail: Trail, chunks: seq<Chunk>)
    decreases trail
  {
    match trail
    case End => chunks == []
    case Via(pos, n, rest) =>
      chunks != [] && n == |chunks[0].data| && Holds(buf, pos, chunks[0].data) && Carries(buf, rest, chunks[1..])
  }

  lemma {:induction false} Ends(buf: seq<Byte>, m: Msg, chunks: seq<Chunk>, end: nat)
    requires m.state.ChunkSize? && Announced(buf, m.next, chunks, end)
    ensures Chunks(buf, m) == (Closed(m, end), Complete)
    decreases |chunks|
  {
    if chunks == [] {
      LastLine(buf, m, end);
    } else {
      var k := chunks[0];
      var pos := m.next + LineSize(k.digits, k.ext);
      OneChunk(buf, m, pos, |k.data|);
      Ends(buf, Past(m, pos, |k.data|), chunks[1..], end);
    }
  }

  lemma {:induction false} Passes(buf: seq<Byte>, m: Msg, chunks: seq<Chunk>, end: nat)
    requires m.state.ChunkSize? && Announced(buf, m.next, chunks, end)
    ensures Carries(buf, Passed(buf, m), chunks)
    decreases |chunks|
  {
    if chunks == [] {
      LastLine(buf, m, end);
    } else {
      var k := chunks[0];
      var pos := m.next + LineSize(k.digits, k.ext);
      OneChunk(buf, m, pos, |k.data|);
      Passes(buf, Past(m, pos, |k.data|), chunks[1..], end);
    }
  }

  // ---------------------------------------------------------------- encoded bodies

  lemma AnnouncedFirst(buf: seq<Byte>, at: nat, chunks: seq<Chunk>, end: nat)
    requires chunks != [] && Framed(buf, at, chunks[0])
    requires Announced(buf, at + FrameSize(chunks[0]), chunks[1..], end)
    ensures Announced(buf, at, chunks, end)
  {
    FrameParts(buf, at, chunks[0]);
    FrameReads(buf, at, chunks[0]);
  }

  /** The buffer holds a line of size zero at `at`. */
  ghost predicate Ended(buf: seq<Byte>, at: nat, zeros: seq<Byte>, ext: seq<Byte>) {
    Written(zeros, ext) && ValueAfter(0, zeros) == 0 && Holds(buf, at, SizeLine(zeros, ext))
  }

  lemma AnnouncedLast(buf: seq<Byte>, at: nat, zeros: seq<Byte>, ext: seq<Byte>)
    requires Ended(buf, at, zeros, ext)
    ensures Announced(buf, at, [], at + LineSize(zeros, ext))
  {
    SizeLineReads(buf, at, zeros, ext);
  }

  /** The buffer holds the chunks at `at`, and then a line of size zero. */
  ghost predicate Encoded(buf: seq<Byte>, at: nat, chunks: seq<Chunk>, zeros: seq<Byte>, ext: seq<Byte>)
    decreases |chunks|
  {
    if chunks == [] then Ended(buf, at, zeros, ext)
    else Framed(buf, at, chunks[0]) && Encoded(buf, at + FrameSize(chunks[0]), chunks[1..], zeros, ext)
  }

  /** The offset just past chunks encoded from `at` on and their last line. */
  function EndOf(chunks: seq<Chunk>, zeros: seq<Byte>, ext: seq<Byte>, at: nat): nat
    decreases |chunks|
  {
    if chunks == [] then at + LineSize(zeros, ext) else EndOf(chunks[1..], zeros, ext, at + FrameSize(chunks[0]))
  }

  lemma {:induction false} EncodingAnnounces(buf: seq<Byte>, at: nat, chunks: seq<Chunk>, zeros: seq<Byte>, ext: seq<Byte>)
    requires Encoded(buf, at, chunks, zeros, ext)
    ensures Announced(buf, at, chunks, EndOf(chunks, zeros, ext, at))
    decreases |chunks|
  {
    if chunks == [] {
      AnnouncedLast(buf, at, zeros, ext);
    } else {
      EncodingAnnounces(buf, at + FrameSize(chunks[0]), chunks[1..], zeros, ext);
      AnnouncedFirst(buf, at, chunks, EndOf(chunks, zeros, ext, at));
    }
  }

  lemma {:induction false} EndIs(chunks: seq<Chunk>, zeros: seq<Byte>, ext: seq<Byte>, at: nat)
    ensures EndOf(chunks, zeros, ext, at) == at + |Encode(chunks)| + |SizeLine(zeros, ext)|
    decreases |chunks|
  {
    if chunks != [] {
      EndIs(chunks[1..], zeros, ext, at + FrameSize(chunks[0]));
    }
  }

  lemma Regroup(frame: seq<Byte>, rest: seq<Byte>, line: seq<Byte>)
    ensures (frame + rest) + line == frame + (rest + line)
  {
  }

  /** A buffer that holds the bytes of the encoded chunks and of the last line holds each of them in
      its place. */
  lemma {:induction false} EncodedWhole(buf: seq<Byte>, at: nat, chunks: seq<Chunk>, zeros: seq<Byte>, ext: seq<Byte>)
    requires forall i :: 0 <= i < |chunks| ==> Proper(chunks[i])
    requires Written(zeros, ext) && ValueAfter(0, zeros) == 0
    requires Holds(buf, at, Encode(chunks) + SizeLine(zeros, ext))
    ensures Encoded(buf, at, chunks, zeros, ext)
    decreases |chunks|
  {
    var line := SizeLine(zeros, ext);
    if chunks == [] {
      assert Encode(chunks) + line == line;
    } else {
      var frame, rest := Frame(chunks[0]), Encode(chunks[1..]);
      Regroup(frame, rest, line);
      HoldsParts(buf, at, frame, rest + line);
      EncodedWhole(buf, at + FrameSize(chunks[0]), chunks[1..], zeros, ext);
    }
  }

  /**
   Any encoded chunks, closed by a line of size zero, take the analyzer from the first size line to
   the end of the message: through exactly the data of those chunks in order, stopping just past
   the last line.
   */
  lemma Framing(buf: seq<Byte>, m: Msg, chunks: seq<Chunk>, zeros: seq<Byte>, ext: seq<Byte>, end: nat)
    requires m.state.ChunkSize? && m.next <= |buf| && Encoded(buf, m.next, chunks, zeros, ext)
    requires end == EndOf(chunks, zeros, ext, m.next)
    ensures Chunks(buf, m) == (Closed(m, end), Complete) && Carries(buf, Passed(buf, m), chunks)
  {
    EncodingAnnounces(buf, m.next, chunks, zeros, ext);
    Ends(buf, m, chunks, end);
    Passes(buf, m, chunks, end);
  }

  /** The same, of the bytes: anything, a body of encoded chunks and its last line, and anything. */
  lemma ChunkedBody(buf: seq<Byte>, m: Msg, chunks: seq<Chunk>, zeros: seq<Byte>, ext: seq<Byte>, end: nat)
    requires forall i :: 0 <= i < |chunks| ==> Proper(chunks[i])
    requires Written(zeros, ext) && ValueAfter(0, zeros) == 0
    requires m.state.ChunkSize? && Holds(buf, m.next, Encode(chunks) + SizeLine(zeros, ext))
    requires end == m.next + |Encode(chunks)| + |SizeLine(zeros, ext)|
    ensures Chunks(buf, m) == (Closed(m, end), Complete) && Carries(buf, Passed(buf, m), chunks)
  {
    EncodedWhole(buf, m.next, chunks, zeros, ext);
    EndIs(chunks, zeros, ext, m.next);
    Framing(buf, m, chunks, zeros, ext, end);
  }
}
