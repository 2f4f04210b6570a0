/**
 The message analyzer of src/http/http_parser.c from the first header on, as a function of the
 buffer and the message so far.
 */
module HttpSpec {
  import opened Common
  import opened HttpLines

  datatype State = Headers | Body | ChunkSize | ChunkData | Done | Error

  datatype Msg = Msg(state: State, flags: set<Flag>, headers: seq<Header>, chunkLen: nat, bodyLen: nat, next: nat)

  /** A call that never returns `Spins`; the others return 0, 1 and -1. */
  datatype Verdict = Wait | Complete | Fail | Spins

  function Shifted(s: Span, start: nat): Span {
    Span(s.pos + start, s.len)
  }

  /** The message after a header line at `p` that says `f`; `length` is what its value reads as. */
  function Apply(m: Msg, f: Field, p: nat, length: nat): Msg {
    m.(headers := m.headers + [Header(Shifted(f.name, p), Shifted(f.value, p))],
       flags := m.flags + f.flags,
       bodyLen := if f.length then length else m.bodyLen)
  }

  /** What the parser finds at a position: no newline yet, the empty line, a line without a colon,
      or a header, with what its value reads as and the offset past it. */
  datatype Line = Partial | Last(end: nat) | Malformed | Headed(field: Field, length: nat, end: nat)

  predicate Blank(line: seq<Byte>) {
    |line| == 1 || (|line| == 2 && line[0] == CR)
  }

  /** The field on the line, which ends with its newline, if it has a colon. */
  function FieldOf(line: seq<Byte>): (f: Option<Field>)
    requires |line| > 0
    ensures f.Some? ==> f.value.value.pos + f.value.value.len < |line|
  {
    var eol := |line| - 1;
    var colon := Find(line[..eol], 0, ':' as int);
    if colon == eol then None else Some(ReadField(line, colon))
  }

  function HeaderLine(buf: seq<Byte>, p: nat, f: Field, end: nat): Line
    requires p + f.value.pos <= |buf|
  {
    Headed(f, if f.length then Length(buf, p + f.value.pos) else 0, end)
  }

  function LineOf(buf: seq<Byte>, p: nat, line: seq<Byte>, f: Option<Field>): Line
    requires f.Some? ==> p + f.value.value.pos <= |buf|
  {
    if Blank(line) then Last(p + |line|)
    else if f.None? then Malformed
    else HeaderLine(buf, p, f.value, p + |line|)
  }

  /** The line at `p` up to and with its newline, once the newline is there. */
  function Text(buf: seq<Byte>, p: nat): (line: Option<seq<Byte>>)
    requires p <= |buf|
    ensures line.Some? ==> 0 < |line.value| <= |buf| - p
  {
    var eol := Find(buf, p, LF);
    if eol == |buf| then None else Some(buf[p..eol + 1])
  }

  function ReadLine(buf: seq<Byte>, p: nat): (l: Line)
    requires p <= |buf|
    ensures l.Last? || l.Headed? ==> p < l.end <= |buf|
  {
    var line := Text(buf, p);
    if line.None? then Partial else LineOf(buf, p, line.value, FieldOf(line.value))
  }

  /** `http_parse_headers` with its cursor at `p`. */
  function ParseHeaders(buf: seq<Byte>, m: Msg, p: nat): (r: (Msg, Verdict))
    requires p <= |buf|
    ensures !r.1.Spins?
    ensures r.1.Wait? ==> r.0.state == m.state
    ensures r.1.Complete? ==> r.0.state.Body?
    ensures r.1.Fail? ==> r.0.state.Error? && r.0.next == m.next
    ensures !r.1.Fail? ==> p <= r.0.next <= |buf|
    ensures r.1.Complete? ==> p < r.0.next
    decreases |buf| - p
  {
    match ReadLine(buf, p)
    case Partial => (m.(next := p), Wait)
    case Last(end) => (m.(next := end, state := Body), Complete)
    case Malformed => (m.(state := Error), Fail)
    case Headed(f, length, end) => ParseHeaders(buf, Apply(m, f, p, length), end)
  }

  /** `http_parse_chunk_size`: nothing changes until the whole line is there. */
  function ParseChunkSize(buf: seq<Byte>, m: Msg): (r: Option<Msg>)
    requires m.next <= |buf|
    ensures r.Some? ==> m.next < r.value.next <= |buf|
  {
    var line := ChunkLine(buf, m.next);
    if line.None? then None
    else
      var (size, end) := line.value;
      Some(m.(chunkLen := size, next := end, state := if size == 0 then Done else ChunkData))
  }

  function Rank(s: State): nat {
    if s.ChunkData? then 2 else if s.ChunkSize? then 1 else 0
  }

  predicate InChunks(s: State) {
    s.ChunkSize? || s.ChunkData?
  }

  /** The loop of `http_msg_analyzer` once in a chunked body. It always ends: the bytes left, then
      the rank of the state, decrease. */
  function Chunks(buf: seq<Byte>, m: Msg): (r: (Msg, Verdict))
    requires m.next <= |buf| && (InChunks(m.state) || m.state.Done?)
    ensures r.0.next <= |buf|
    ensures if r.0.state.Done? then r.1.Complete? else r.1.Wait? && InChunks(r.0.state)
    decreases |buf| - m.next, Rank(m.state)
  {
    match m.state
    case ChunkSize =>
      var c := ParseChunkSize(buf, m);
      if c.None? then (m, Wait) else Chunks(buf, c.value)
    case ChunkData =>
      var need := U64(m.chunkLen + 2);
      if |buf| - m.next < need then (m, Wait)
      else Chunks(buf, m.(next := m.next + need, state := ChunkSize))
    case Done => (m, Complete)
  }

  /** The loop with the headers read. */
  function AfterHeaders(buf: seq<Byte>, m: Msg): (r: (Msg, Verdict))
    requires m.next <= |buf|
    ensures r.0.next <= |buf|
  {
    if Chunked in m.flags then Chunks(buf, m.(state := ChunkSize))
    else if CntLen in m.flags && m.bodyLen != 0 then (m, Spins)
    else (m.(state := Done), Complete)
  }

  function AfterParse(buf: seq<Byte>, h: (Msg, Verdict)): (r: (Msg, Verdict))
    requires h.0.next <= |buf|
    ensures r.0.next <= |buf|
  {
    if h.1.Complete? then AfterHeaders(buf, h.0) else h
  }

  /** `http_msg_analyzer`: a finished or failed message is left alone. */
  function Analyze(buf: seq<Byte>, m: Msg): (r: (Msg, Verdict))
    requires m.next <= |buf|
    ensures r.0.next <= |buf|
  {
    match m.state
    case Headers => AfterParse(buf, ParseHeaders(buf, m, m.next))
    case Body => AfterHeaders(buf, m)
    case ChunkSize => Chunks(buf, m)
    case ChunkData => Chunks(buf, m)
    case Done => (m, Wait)
    case Error => (m, Wait)
  }

  // ---------------------------------------------------------------- what the header lines say

  /** The header lines from `p` on all have a colon and end with the empty line. */
  predicate HeadersEnd(buf: seq<Byte>, p: nat)
    requires p <= |buf|
    decreases |buf| - p
  {
    var l := ReadLine(buf, p);
    l.Last? || (l.Headed? && HeadersEnd(buf, l.end))
  }

  /** One of them sets the flag. */
  predicate Says(buf: seq<Byte>, p: nat, flag: Flag)
    requires p <= |buf|
    decreases |buf| - p
  {
    var l := ReadLine(buf, p);
    l.Headed? && (flag in l.field.flags || Says(buf, l.end, flag))
  }

  /** The value of the last of them that is taken for Content-Length, or `length` without one. */
  function LastLength(buf: seq<Byte>, p: nat, length: nat): nat
    requires p <= |buf|
    decreases |buf| - p
  {
    var l := ReadLine(buf, p);
    if l.Headed? then LastLength(buf, l.end, if l.field.length then l.length else length) else length
  }

  /** The parser collects exactly that. */
  lemma {:induction false} ParseCollects(buf: seq<Byte>, m: Msg, p: nat)
    requires p <= |buf|
    ensures var r := ParseHeaders(buf, m, p);
      && (r.1.Complete? <==> HeadersEnd(buf, p))
      && (forall f :: f in r.0.flags <==> f in m.flags || Says(buf, p, f))
      && r.0.bodyLen == LastLength(buf, p, m.bodyLen)
    decreases |buf| - p
  {
    var l := ReadLine(buf, p);
    if l.Headed? {
      ParseCollects(buf, Apply(m, l.field, p, l.length), l.end);
    }
  }

  /** The header lines are complete and, with what is known already, announce a body of a length
      other than 0 that is not chunked. */
  ghost predicate Stuck(buf: seq<Byte>, m: Msg)
    requires m.next <= |buf|
  {
    && HeadersEnd(buf, m.next)
    && (CntLen in m.flags || Says(buf, m.next, CntLen))
    && !(Chunked in m.flags || Says(buf, m.next, Chunked))
    && LastLength(buf, m.next, m.bodyLen) != 0
  }

  /** The analyzer never returns if and only if the headers are complete, none says chunked, and
      the last Content-Length is not zero. */
  lemma SpinsExactly(buf: seq<Byte>, m: Msg)
    requires m.next <= |buf| && m.state.Headers?
    ensures Analyze(buf, m).1.Spins? <==> Stuck(buf, m)
  {
    ParseCollects(buf, m, m.next);
  }
}
