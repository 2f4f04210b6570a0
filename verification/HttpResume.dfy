/**
 Parsing a message piece by piece: whatever the cuts, the analyzer ends where one call on the
 whole buffer ends.
 */
module HttpResume {
  import opened Common
  import opened HttpLines
  import opened HttpSpec

  /** `a` is the message of the piecewise run, `b` of the single call. A failed call leaves `next`
      where that call began. The body length is the same when `exact`; otherwise `a` may still
      hold the value of fewer digits. */
  ghost predicate Close(exact: bool, a: Msg, b: Msg) {
    && a.state == b.state && a.flags == b.flags && a.headers == b.headers && a.chunkLen == b.chunkLen
    && Shorter(exact, a.bodyLen, b.bodyLen)
  }

  /** A line whose name is taken for Content-Length has a value. */
  ghost predicate HasValue(l: Line, p: nat) {
    l.Headed? && l.field.length ==> p + l.field.value.pos + 1 < l.end
  }

  /** Every such line from `p` on has one. */
  ghost predicate Valued(buf: seq<Byte>, p: nat)
    requires p <= |buf|
    decreases |buf| - p
  {
    var l := ReadLine(buf, p);
    HasValue(l, p) && (l.Headed? ==> Valued(buf, l.end))
  }

  // ---------------------------------------------------------------- what a prefix shows

  lemma {:induction false} FindLocal(buf: seq<Byte>, c: nat, p: nat, b: int)
    requires p <= c <= |buf| && Find(buf[..c], p, b) < c
    ensures Find(buf, p, b) == Find(buf[..c], p, b)
    decreases c - p
  {
    if buf[p] != b {
      FindLocal(buf, c, p + 1, b);
    }
  }

  lemma {:induction false} DecimalLocal(buf: seq<Byte>, c: nat, p: nat, stop: nat, acc: nat)
    requires p <= stop < c <= |buf| && !IsDigit(buf[stop])
    ensures Decimal(buf[..c], p, acc) == Decimal(buf, p, acc)
    decreases stop - p
  {
    if IsDigit(buf[p]) {
      DecimalLocal(buf, c, p + 1, stop, acc * 10 + (buf[p] - 48));
    }
  }

  lemma {:induction false} DecimalGrows(buf: seq<Byte>, c: nat, p: nat, acc: nat)
    requires p <= c <= |buf|
    ensures acc <= Decimal(buf[..c], p, acc) <= Decimal(buf, p, acc)
    decreases |buf| - p
  {
    if p < c && IsDigit(buf[p]) {
      DecimalGrows(buf, c, p + 1, acc * 10 + (buf[p] - 48));
    } else if p == c && p < |buf| && IsDigit(buf[p]) {
      assert buf[..|buf|] == buf;
      DecimalGrows(buf, |buf|, p + 1, acc * 10 + (buf[p] - 48));
    }
  }

  lemma {:induction false} SkipLocal(buf: seq<Byte>, c: nat, p: nat)
    requires p <= c <= |buf|
    ensures var q := SkipSpace(buf[..c], p, c); q < c ==> SkipSpace(buf, p, |buf|) == q
    decreases c - p
  {
    if p < c && IsSpace(buf[p]) {
      SkipLocal(buf, c, p + 1);
    }
  }

  /** A value on its own line is read the same however much follows. */
  lemma LengthLocal(buf: seq<Byte>, c: nat, p: nat, eol: nat)
    requires p < eol < c <= |buf| && buf[eol] == LF && !IsSpace(buf[p])
    ensures Length(buf[..c], p) == Length(buf, p)
  {
    DecimalLocal(buf, c, p, eol, 0);
    DecimalLocal(buf, c, p + 1, eol, 0);
  }

  /** In any case a length of zero on the longer buffer is zero on the shorter. */
  lemma LengthGrows(buf: seq<Byte>, c: nat, p: nat)
    requires p <= c <= |buf| && Length(buf, p) == 0
    ensures Length(buf[..c], p) == 0
  {
    SkipLocal(buf, c, p);
    var q := SkipSpace(buf[..c], p, c);
    if q < c {
      DecimalGrows(buf, c, q, 0);
      DecimalGrows(buf, c, q + 1, 0);
    }
  }

  lemma {:induction false} HexLocal(buf: seq<Byte>, c: nat, p: nat, acc: nat)
    requires p <= c <= |buf| && Hex(buf[..c], p, acc).1 < c
    ensures Hex(buf, p, acc) == Hex(buf[..c], p, acc)
    decreases c - p
  {
    if p < c && IsHex(buf[p]) {
      HexLocal(buf, c, p + 1, U64(acc * 16 + HexDigit(buf[p])));
    }
  }

  lemma ChunkLineLocal(buf: seq<Byte>, c: nat, p: nat)
    requires p <= c <= |buf| && ChunkLine(buf[..c], p).Some?
    ensures ChunkLine(buf, p) == ChunkLine(buf[..c], p)
  {
    var (size, q) := Hex(buf[..c], p, 0);
    HexLocal(buf, c, p, 0);
    FindLocal(buf, c, q, LF);
  }

  // ---------------------------------------------------------------- header lines

  /** `a` is the shorter reading of a length, `b` the longer. */
  ghost predicate Shorter(exact: bool, a: nat, b: nat) {
    if exact then a == b else b == 0 ==> a == 0
  }

  lemma LengthClose(exact: bool, buf: seq<Byte>, c: nat, at: nat, eol: nat)
    requires at <= eol < c <= |buf| && buf[eol] == LF
    requires at < eol ==> !IsSpace(buf[at])
    requires exact ==> at < eol
    ensures Shorter(exact, Length(buf[..c], at), Length(buf, at))
  {
    if at < eol {
      LengthLocal(buf, c, at, eol);
    } else if Length(buf, at) == 0 {
      LengthGrows(buf, c, at);
    }
  }

  lemma ApplyClose(exact: bool, a: Msg, b: Msg, f: Field, p: nat, short: nat, long: nat)
    requires Close(exact, a, b) && (f.length ==> Shorter(exact, short, long))
    ensures Close(exact, Apply(a, f, p, short), Apply(b, f, p, long))
  {
  }

  /** `a` and `b` are the same line, read on a shorter and on a longer buffer. */
  ghost predicate SameLine(exact: bool, a: Line, b: Line) {
    match a
    case Headed(f, length, end) => b.Headed? && b == Headed(f, b.length, end) && Shorter(exact, length, b.length)
    case _ => a == b
  }

  lemma HeaderLineLocal(exact: bool, buf: seq<Byte>, c: nat, p: nat, f: Field, eol: nat)
    requires p + f.value.pos <= eol < c <= |buf| && buf[eol] == LF
    requires p + f.value.pos < eol ==> !IsSpace(buf[p + f.value.pos])
    requires exact && f.length ==> p + f.value.pos < eol
    ensures SameLine(exact, HeaderLine(buf[..c], p, f, eol + 1), HeaderLine(buf, p, f, eol + 1))
  {
    if f.length {
      LengthClose(exact, buf, c, p + f.value.pos, eol);
    }
  }

  lemma ValueIsText(line: seq<Byte>)
    requires |line| > 0
    ensures var f := FieldOf(line); f.Some? && f.value.value.pos < |line| - 1 ==> !IsSpace(line[f.value.value.pos])
  {
  }

  lemma LineOfLocal(exact: bool, buf: seq<Byte>, c: nat, p: nat, line: seq<Byte>, f: Option<Field>)
    requires 0 < |line| && p + |line| <= c <= |buf| && line == buf[p..p + |line|] && line[|line| - 1] == LF
    requires f.Some? ==> f.value.value.pos < |line|
    requires f.Some? && f.value.value.pos < |line| - 1 ==> !IsSpace(line[f.value.value.pos])
    requires exact ==> HasValue(LineOf(buf, p, line, f), p)
    ensures SameLine(exact, LineOf(buf[..c], p, line, f), LineOf(buf, p, line, f))
  {
    if !Blank(line) && f.Some? {
      assert line[f.value.value.pos] == buf[p + f.value.value.pos];
      HeaderLineLocal(exact, buf, c, p, f.value, p + |line| - 1);
    }
  }

  lemma TextLocal(buf: seq<Byte>, c: nat, p: nat)
    requires p <= c <= |buf| && Text(buf[..c], p).Some?
    ensures Text(buf, p) == Text(buf[..c], p)
    ensures var line := Text(buf, p).value; line == buf[p..p + |line|] && line[|line| - 1] == LF
  {
    FindLocal(buf, c, p, LF);
    var eol := Find(buf, p, LF);
    assert buf[..c][p..eol + 1] == buf[p..eol + 1];
  }

  lemma LineLocal(exact: bool, buf: seq<Byte>, c: nat, p: nat)
    requires p <= c <= |buf| && Text(buf[..c], p).Some?
    requires exact ==> HasValue(ReadLine(buf, p), p)
    ensures SameLine(exact, ReadLine(buf[..c], p), ReadLine(buf, p))
  {
    TextLocal(buf, c, p);
    var line := Text(buf, p).value;
    ValueIsText(line);
    LineOfLocal(exact, buf, c, p, line, FieldOf(line));
  }

  // ---------------------------------------------------------------- headers

  /** Two outcomes of the header parser that only differ as `Close` allows. */
  ghost predicate Agree(exact: bool, r: (Msg, Verdict), s: (Msg, Verdict)) {
    r.1 == s.1 && Close(exact, r.0, s.0) && (!s.1.Fail? ==> r.0.next == s.0.next)
  }

  lemma {:induction false} HeadersSim(exact: bool, buf: seq<Byte>, a: Msg, b: Msg, p: nat)
    requires p <= |buf| && Close(exact, a, b)
    ensures Agree(exact, ParseHeaders(buf, a, p), ParseHeaders(buf, b, p))
    decreases |buf| - p
  {
    var l := ReadLine(buf, p);
    if l.Headed? {
      ApplyClose(exact, a, b, l.field, p, l.length, l.length);
      HeadersSim(exact, buf, Apply(a, l.field, p, l.length), Apply(b, l.field, p, l.length), l.end);
    }
  }

  /** Headers cut short and taken up again on the whole buffer, against headers read in one go. */
  ghost predicate TakenUp(exact: bool, buf: seq<Byte>, r: (Msg, Verdict), s: (Msg, Verdict))
    requires r.1.Wait? ==> r.0.next <= |buf|
  {
    if r.1.Wait? then Agree(exact, ParseHeaders(buf, r.0, r.0.next), s) && (exact ==> Valued(buf, r.0.next))
    else Agree(exact, r, s)
  }

  lemma {:induction false} HeadersResume(exact: bool, buf: seq<Byte>, c: nat, a: Msg, b: Msg, p: nat)
    requires p <= c <= |buf| && Close(exact, a, b) && (exact ==> Valued(buf, p))
    ensures TakenUp(exact, buf, ParseHeaders(buf[..c], a, p), ParseHeaders(buf, b, p))
    decreases c - p
  {
    var l := ReadLine(buf[..c], p);
    if l.Partial? {
      HeadersSim(exact, buf, a.(next := p), b, p);
    } else {
      LineLocal(exact, buf, c, p);
      if l.Headed? {
        var k := ReadLine(buf, p);
        ApplyClose(exact, a, b, l.field, p, l.length, k.length);
        HeadersResume(exact, buf, c, Apply(a, l.field, p, l.length), Apply(b, l.field, p, k.length), l.end);
      }
    }
  }

  // ---------------------------------------------------------------- chunks

  /** In a chunked body the body length plays no part. */
  lemma {:induction false} ChunksIgnore(buf: seq<Byte>, m: Msg, length: nat)
    requires m.next <= |buf| && (InChunks(m.state) || m.state.Done?)
    ensures Chunks(buf, m.(bodyLen := length)) == (Chunks(buf, m).0.(bodyLen := length), Chunks(buf, m).1)
    decreases |buf| - m.next, Rank(m.state)
  {
    if m.state.ChunkSize? {
      var c := ParseChunkSize(buf, m);
      if c.Some? {
        ChunksIgnore(buf, c.value, length);
      }
    } else if m.state.ChunkData? {
      var need := U64(m.chunkLen + 2);
      if need <= |buf| - m.next {
        ChunksIgnore(buf, m.(next := m.next + need, state := ChunkSize), length);
      }
    }
  }

  lemma SizeStep(buf: seq<Byte>, m: Msg, c: Msg)
    requires m.next <= |buf| && m.state.ChunkSize? && ParseChunkSize(buf, m) == Some(c)
    ensures Chunks(buf, m) == Chunks(buf, c)
  {
  }

  lemma DataStep(buf: seq<Byte>, m: Msg, c: Msg)
    requires m.state.ChunkData? && m.next + U64(m.chunkLen + 2) <= |buf|
    requires c == m.(next := m.next + U64(m.chunkLen + 2), state := ChunkSize)
    ensures Chunks(buf, m) == Chunks(buf, c)
  {
  }

  lemma Stays(buf: seq<Byte>, m: Msg)
    requires m.next <= |buf| && InChunks(m.state)
    requires m.state.ChunkSize? ==> ParseChunkSize(buf, m).None?
    requires m.state.ChunkData? ==> |buf| - m.next < U64(m.chunkLen + 2)
    ensures Chunks(buf, m) == (m, Wait)
  {
  }

  /** Chunks cut short at `c` and taken up again end where chunks read in one go end. */
  lemma {:induction false} ChunksResume(buf: seq<Byte>, c: nat, m: Msg)
    requires m.next <= c <= |buf| && (InChunks(m.state) || m.state.Done?)
    ensures Chunks(buf, Chunks(buf[..c], m).0) == Chunks(buf, m)
    decreases c - m.next, Rank(m.state)
  {
    var part := buf[..c];
    var need := U64(m.chunkLen + 2);
    if m.state.ChunkSize? && ParseChunkSize(part, m).Some? {
      var x := ParseChunkSize(part, m).value;
      ChunkLineLocal(buf, c, m.next);
      ChunksResume(buf, c, x);
      SizeStep(part, m, x);
      SizeStep(buf, m, x);
    } else if m.state.ChunkData? && need <= c - m.next {
      var x := m.(next := m.next + need, state := ChunkSize);
      ChunksResume(buf, c, x);
      DataStep(part, m, x);
      DataStep(buf, m, x);
    } else if InChunks(m.state) {
      Stays(part, m);
    }
  }

  // ---------------------------------------------------------------- the whole analyzer

  /** The call `r` on a part of the buffer, followed by a call on the whole, against one call `s`. */
  ghost predicate Resumed(exact: bool, buf: seq<Byte>, r: (Msg, Verdict), s: (Msg, Verdict))
    requires r.0.next <= |buf|
  {
    if r.1.Spins? then exact && s.1.Spins?
    else
      var t := Analyze(buf, r.0);
      Close(exact, t.0, s.0) && (!s.0.state.Error? ==> t.0.next == s.0.next) && (t.1.Spins? <==> s.1.Spins?)
      && (exact && r.0.state.Headers? ==> Valued(buf, r.0.next))
  }

  lemma AfterSim(exact: bool, buf: seq<Byte>, a: Msg, b: Msg)
    requires a.next == b.next <= |buf| && Close(exact, a, b)
    requires exact || !AfterHeaders(buf, b).1.Spins?
    ensures Agree(exact, AfterHeaders(buf, a), AfterHeaders(buf, b))
  {
    if Chunked in b.flags {
      ChunksIgnore(buf, b.(state := ChunkSize), a.bodyLen);
      assert a.(state := ChunkSize) == b.(state := ChunkSize).(bodyLen := a.bodyLen);
      ChunksIgnore(buf, b.(state := ChunkSize), b.bodyLen);
    }
  }

  lemma AfterResume(exact: bool, buf: seq<Byte>, c: nat, a: Msg, b: Msg)
    requires a.next == b.next <= c <= |buf| && Close(exact, a, b)
    requires exact || !AfterHeaders(buf, b).1.Spins?
    ensures Resumed(exact, buf, AfterHeaders(buf[..c], a), AfterHeaders(buf, b))
  {
    AfterSim(exact, buf, a, b);
    if Chunked in b.flags {
      ChunksResume(buf, c, a.(state := ChunkSize));
    }
  }

  lemma ParseSim(exact: bool, buf: seq<Byte>, r: (Msg, Verdict), s: (Msg, Verdict))
    requires r.0.next <= |buf| && s.0.next <= |buf| && Agree(exact, r, s)
    requires exact || !AfterParse(buf, s).1.Spins?
    ensures Agree(exact, AfterParse(buf, r), AfterParse(buf, s))
  {
    if s.1.Complete? {
      AfterSim(exact, buf, r.0, s.0);
    }
  }

  lemma ParseResume(exact: bool, buf: seq<Byte>, c: nat, r: (Msg, Verdict), s: (Msg, Verdict))
    requires r.0.next <= c <= |buf| && s.0.next <= |buf| && TakenUp(exact, buf, r, s)
    requires r.1.Wait? ==> r.0.state.Headers?
    requires r.1.Fail? ==> r.0.state.Error?
    requires !r.1.Spins? && (s.0.state.Error? <==> s.1.Fail?)
    requires exact || !AfterParse(buf, s).1.Spins?
    ensures Resumed(exact, buf, AfterParse(buf[..c], r), AfterParse(buf, s))
  {
    if r.1.Complete? {
      AfterResume(exact, buf, c, r.0, s.0);
    } else if r.1.Wait? {
      ParseSim(exact, buf, ParseHeaders(buf, r.0, r.0.next), s);
    }
  }

  lemma ResumeHeaders(exact: bool, buf: seq<Byte>, c: nat, m: Msg)
    requires m.next <= c <= |buf| && m.state.Headers?
    requires exact || !Analyze(buf, m).1.Spins?
    requires exact ==> Valued(buf, m.next)
    ensures Resumed(exact, buf, Analyze(buf[..c], m), Analyze(buf, m))
  {
    HeadersResume(exact, buf, c, m, m, m.next);
    ParseResume(exact, buf, c, ParseHeaders(buf[..c], m, m.next), ParseHeaders(buf, m, m.next));
  }

  lemma ResumeChunks(exact: bool, buf: seq<Byte>, c: nat, m: Msg)
    requires m.next <= c <= |buf| && InChunks(m.state)
    ensures Resumed(exact, buf, Chunks(buf[..c], m), Chunks(buf, m))
  {
    ChunksResume(buf, c, m);
  }

  lemma Resume(exact: bool, buf: seq<Byte>, c: nat, m: Msg)
    requires m.next <= c <= |buf|
    requires exact || !Analyze(buf, m).1.Spins?
    requires exact && m.state.Headers? ==> Valued(buf, m.next)
    ensures Resumed(exact, buf, Analyze(buf[..c], m), Analyze(buf, m))
  {
    match m.state
    case Headers => ResumeHeaders(exact, buf, c, m);
    case Body => AfterResume(exact, buf, c, m, m);
    case ChunkSize => ResumeChunks(exact, buf, c, m);
    case ChunkData => ResumeChunks(exact, buf, c, m);
    case Done =>
    case Error =>
  }

  // ---------------------------------------------------------------- arriving pieces

  /** Offsets at which the analyzer is called, each with all the data up to it; the last call sees
      the whole buffer. */
  ghost predicate Cuts(cuts: seq<nat>, from: nat, size: nat) {
    |cuts| > 0 && cuts[|cuts| - 1] == size && from <= cuts[0]
    && forall i, j :: 0 <= i < j < |cuts| ==> cuts[i] <= cuts[j]
  }

  /** The calls one after the other; a call that never returns is the last. */
  function Feed(buf: seq<Byte>, cuts: seq<nat>, m: Msg): (r: (Msg, Verdict))
    requires Cuts(cuts, m.next, |buf|)
    ensures r.0.next <= |buf|
    decreases |cuts|
  {
    var r := Analyze(buf[..cuts[0]], m);
    if |cuts| == 1 || r.1.Spins? then r else Feed(buf, cuts[1..], r.0)
  }

  /**
   However the buffer is cut, calling the analyzer after each piece ends in the same state, with
   the same flags, headers and chunk length as one call on the whole buffer, and at the same
   offset unless the message is in error. When every Content-Length line has a value this holds of
   the body length and of calls that never return as well (`exact`); otherwise it holds whenever
   the one call returns.
   */
  lemma {:induction false} Incremental(exact: bool, buf: seq<Byte>, cuts: seq<nat>, m: Msg)
    requires Cuts(cuts, m.next, |buf|)
    requires exact || !Analyze(buf, m).1.Spins?
    requires exact && m.state.Headers? ==> Valued(buf, m.next)
    ensures var r, s := Feed(buf, cuts, m), Analyze(buf, m);
      (r.1.Spins? <==> s.1.Spins?) && (!s.1.Spins? ==> Close(exact, r.0, s.0) && (!s.0.state.Error? ==> r.0.next == s.0.next))
    decreases |cuts|
  {
    Resume(exact, buf, cuts[0], m);
    var r := Analyze(buf[..cuts[0]], m);
    if |cuts| == 1 {
      assert buf[..cuts[0]] == buf;
    } else if !r.1.Spins? {
      Incremental(exact, buf, cuts[1..], r.0);
    }
  }

  /** A line `c:` without a value is taken for Content-Length. */
  lemma BareLength()
    ensures var line: seq<Byte> := [99, 58, 10];
      FieldOf(line).Some? && FieldOf(line).value.length && FieldOf(line).value.flags == {CntLen} &&
      FieldOf(line).value.value.pos == 2 && !Blank(line)
  {
    var line: seq<Byte> := [99, 58, 10];
    FindIs(line[..2], 0, 58, 1);
    assert line[..1] == [99];
    assert Trimmed(line[..1]) == 1;
    assert Matches(line[..1], "content-length", 1);
  }

  lemma PlainField()
    ensures var line: seq<Byte> := [53, 58, 120, 10];
      FieldOf(line).Some? && !FieldOf(line).value.length && FieldOf(line).value.flags == {} && !Blank(line)
  {
    var line: seq<Byte> := [53, 58, 120, 10];
    FindIs(line[..3], 0, 58, 1);
    assert line[..1] == [53];
    assert Trimmed(line[..1]) == 1;
  }

  const SAMPLE: seq<Byte> := [99, 58, 10, 53, 58, 120, 10, 10]

  lemma SampleText()
    ensures Text(SAMPLE, 0) == Some([99, 58, 10]) == Text(SAMPLE[..3], 0)
    ensures Text(SAMPLE, 3) == Some([53, 58, 120, 10]) && Text(SAMPLE, 7) == Some([10])
  {
    FindIs(SAMPLE, 0, LF, 2);
    FindIs(SAMPLE[..3], 0, LF, 2);
    FindIs(SAMPLE, 3, LF, 6);
    FindIs(SAMPLE, 7, LF, 7);
    assert SAMPLE[0..3] == [99, 58, 10] == SAMPLE[..3][0..3];
    assert SAMPLE[3..7] == [53, 58, 120, 10] && SAMPLE[7..8] == [10];
  }

  lemma SampleLengths()
    ensures Length(SAMPLE, 2) == 5 && Length(SAMPLE[..3], 2) == 0
  {
    assert SkipSpace(SAMPLE, 3, 8) == 3;
    assert SkipSpace(SAMPLE, 2, 8) == 3;
    assert Decimal(SAMPLE, 4, 5) == 5;
    assert Decimal(SAMPLE, 3, 0) == 5;
    var part := SAMPLE[..3];
    assert SkipSpace(part, 3, 3) == 3;
    assert SkipSpace(part, 2, 3) == 3;
  }

  lemma SampleLines()
    ensures var l, k := ReadLine(SAMPLE, 0), ReadLine(SAMPLE[..3], 0);
      && l.Headed? && l.field.flags == {CntLen} && l.field.length && l.length == 5 && l.end == 3
      && k.Headed? && k.field.flags == {CntLen} && k.field.length && k.length == 0 && k.end == 3
    ensures var l := ReadLine(SAMPLE, 3); l.Headed? && l.field.flags == {} && !l.field.length && l.end == 7
    ensures ReadLine(SAMPLE, 7) == Last(8) && ReadLine(SAMPLE[..3], 3) == Partial
  {
    SampleText();
    BareLength();
    PlainField();
    SampleLengths();
  }

  /** Without a value the property fails: one call on this buffer takes the digit of the next line
      for the length and never returns; with a call after the first line the message completes. */
  lemma BlankLengthStrays()
    ensures var m := Msg(Headers, {}, [], 0, 0, 0);
      Analyze(SAMPLE, m).1.Spins? && Feed(SAMPLE, [3, 8], m).0.state.Done?
  {
    SampleLines();
    var m := Msg(Headers, {}, [], 0, 0, 0);
    var l, k, n := ReadLine(SAMPLE, 0), ReadLine(SAMPLE[..3], 0), ReadLine(SAMPLE, 3);
    var a, b := Apply(m, l.field, 0, l.length), Apply(m, k.field, 0, k.length).(next := 3);
    assert ParseHeaders(SAMPLE[..3], m, 0) == (b, Wait);
    var x, y := Apply(a, n.field, 3, n.length), Apply(b, n.field, 3, n.length);
    assert ParseHeaders(SAMPLE, x, 7) == (x.(next := 8, state := Body), Complete);
    assert ParseHeaders(SAMPLE, y, 7) == (y.(next := 8, state := Body), Complete);
    assert SAMPLE[..8] == SAMPLE;
  }
}
