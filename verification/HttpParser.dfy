/**
 The parser of src/http/http_parser.c in its own form: loops over the buffer that update the
 message in place.
 */
module HttpParser {
  import opened Common
  import opened HttpLines
  import opened HttpSpec

  /** `isspace` from the right. */
  method TrimEnd(s: seq<Byte>) returns (n: nat)
    ensures n == Trimmed(s)
  {
    n := |s|;
    assert s[..n] == s;
    while n > 0 && IsSpace(s[n - 1])
      invariant n <= |s| && Trimmed(s[..n]) == Trimmed(s)
    {
      assert s[..n][..n - 1] == s[..n - 1];
      n := n - 1;
    }
  }

  /** `isspace` from the left. */
  method SkipFrom(s: seq<Byte>, p: nat, eol: nat) returns (q: nat)
    requires p <= eol <= |s|
    ensures q == SkipSpace(s, p, eol)
  {
    q := p;
    while q < eol && IsSpace(s[q])
      invariant p <= q <= eol && SkipSpace(s, q, eol) == SkipSpace(s, p, eol)
    {
      q := q + 1;
    }
  }

  method Scan(buf: seq<Byte>, p: nat, c: int) returns (q: nat)
    requires p <= |buf|
    ensures q == Find(buf, p, c)
  {
    q := p;
    while q < |buf| && buf[q] != c
      invariant p <= q <= |buf| && Find(buf, q, c) == Find(buf, p, c)
    {
      q := q + 1;
    }
  }

  /** Name and value of a header line, both trimmed, and what the two say. */
  method ReadHeader(line: seq<Byte>, colon: nat) returns (f: Field)
    requires colon + 1 < |line|
    ensures f == ReadField(line, colon)
  {
    var eol := |line| - 1;
    var n := TrimEnd(line[..colon]);
    var v := SkipFrom(line, colon + 1, eol);
    var cut := eol;
    if v < cut && line[cut - 1] == CR {
      cut := cut - 1;
    }
    var len := TrimEnd(line[v..cut]);
    f := ParseField(Span(0, n), Span(v, len), line[..n], line[v..]);
  }

  method TakeField(line: seq<Byte>) returns (f: Option<Field>)
    requires |line| > 0
    ensures f == FieldOf(line)
  {
    var eol := |line| - 1;
    var colon := Scan(line[..eol], 0, ':' as int);
    if colon == eol {
      return None;
    }
    var field := ReadHeader(line, colon);
    return Some(field);
  }

  /** The line at `p`: where it ends, whether it is empty, and the header on it. */
  method TakeLine(buf: seq<Byte>, p: nat) returns (l: Line)
    requires p <= |buf|
    ensures l == ReadLine(buf, p)
  {
    var eol := Scan(buf, p, LF);
    if eol == |buf| {
      return Partial;
    }
    var line := buf[p..eol + 1];
    var f := TakeField(line);
    l := LineOf(buf, p, line, f);
  }

  /** Where the loop of the analyzer ends from here. */
  ghost function Onward(buf: seq<Byte>, m: Msg): (Msg, Verdict)
    requires m.next <= |buf|
  {
    if m.state.Done? then (m, Complete) else HttpSpec.Analyze(buf, m)
  }

  function Order(s: State): nat {
    if s.Headers? then 4 else if s.Body? then 3 else Rank(s)
  }

  lemma OnwardHeaders(buf: seq<Byte>, m: Msg, h: Msg)
    requires m.next <= |buf| && m.state.Headers? && HttpSpec.ParseHeaders(buf, m, m.next) == (h, Complete)
    ensures Onward(buf, h) == Onward(buf, m)
  {
  }

  lemma OnwardBody(buf: seq<Byte>, m: Msg)
    requires m.next <= |buf| && m.state.Body? && Chunked in m.flags
    ensures Onward(buf, m.(state := ChunkSize)) == Onward(buf, m)
  {
  }

  lemma OnwardSize(buf: seq<Byte>, m: Msg, c: Msg)
    requires m.next <= |buf| && m.state.ChunkSize? && HttpSpec.ParseChunkSize(buf, m) == Some(c)
    ensures Onward(buf, c) == Onward(buf, m)
  {
    assert Chunks(buf, m) == Chunks(buf, c);
  }

  lemma OnwardData(buf: seq<Byte>, m: Msg)
    requires m.state.ChunkData? && m.next + U64(m.chunkLen + 2) <= |buf|
    ensures Onward(buf, m.(next := m.next + U64(m.chunkLen + 2), state := ChunkSize)) == Onward(buf, m)
  {
  }

  class Message {
    var state: State
    var flags: set<Flag>
    var headers: seq<Header>
    var chunkLen: nat
    var bodyLen: nat
    var next: nat

    ghost function View(): Msg
      reads this
    {
      Msg(state, flags, headers, chunkLen, bodyLen, next)
    }

    /** A message whose start line ends at `start`. */
    constructor (start: nat)
      ensures View() == Msg(Headers, {}, [], 0, 0, start)
    {
      state, flags, headers, chunkLen, bodyLen, next := Headers, {}, [], 0, 0, start;
    }

    method Add(f: Field, p: nat, length: nat)
      modifies this`flags, this`headers, this`bodyLen
      ensures View() == Apply(old(View()), f, p, length)
    {
      if f.length {
        bodyLen := length;
      }
      flags := flags + f.flags;
      headers := headers + [Header(Shifted(f.name, p), Shifted(f.value, p))];
    }

    method ParseHeaders(buf: seq<Byte>) returns (v: Verdict)
      requires next <= |buf|
      modifies this
      ensures (View(), v) == HttpSpec.ParseHeaders(buf, old(View()), old(next))
    {
      var p := next;
      ghost var before := View();
      while p < |buf|
        invariant p <= |buf|
        invariant HttpSpec.ParseHeaders(buf, View(), p) == HttpSpec.ParseHeaders(buf, before, before.next)
        decreases |buf| - p
      {
        var l := TakeLine(buf, p);
        match l {
          case Partial =>
            break;
          case Last(end) =>
            next := end;
            state := Body;
            return Complete;
          case Malformed =>
            state := Error;
            return Fail;
          case Headed(f, length, end) =>
            Add(f, p, length);
            p := end;
        }
      }
      next := p;
      return Wait;
    }

    method ParseChunkSize(buf: seq<Byte>) returns (done: bool)
      requires next <= |buf| && state.ChunkSize?
      modifies this
      ensures var r := HttpSpec.ParseChunkSize(buf, old(View()));
        done == r.Some? && View() == if r.Some? then r.value else old(View())
    {
      var p := next;
      var size: nat := 0;
      while p < |buf| && IsHex(buf[p])
        invariant next <= p <= |buf| && Hex(buf, p, size) == Hex(buf, next, 0)
      {
        size := U64(size * 16 + HexDigit(buf[p]));
        p := p + 1;
      }
      ghost var q := p;
      while p < |buf| && buf[p] != LF
        invariant q <= p <= |buf| && Find(buf, p, LF) == Find(buf, q, LF)
      {
        if buf[p] == ';' as int {
          p := Scan(buf, p, LF);
          break;
        }
        p := p + 1;
      }
      if p >= |buf| {
        return false;
      }
      chunkLen := size;
      next := p + 1;
      state := if size == 0 then Done else ChunkData;
      return true;
    }

    /** Moves past the data of a chunk once all of it is there. */
    method PassChunk(buf: seq<Byte>) returns (passed: bool)
      requires next <= |buf| && state.ChunkData?
      modifies this`next, this`state
      ensures passed ==> old(next) <= next <= |buf| && state.ChunkSize? && Onward(buf, View()) == Onward(buf, old(View()))
      ensures !passed ==> View() == old(View()) && Onward(buf, View()) == (View(), Wait)
    {
      var need := U64(chunkLen + 2);
      if |buf| - next < need {
        return false;
      }
      OnwardData(buf, View());
      next := next + need;
      state := ChunkSize;
      return true;
    }

    /** `Spins` stands for the loop that never leaves the body state. */
    method Analyze(buf: seq<Byte>) returns (v: Verdict)
      requires next <= |buf|
      modifies this
      ensures (View(), v) == HttpSpec.Analyze(buf, old(View()))
    {
      if state.Error? || state.Done? {
        return Wait;
      }
      ghost var before := View();
      while true
        invariant next <= |buf| && !state.Error?
        invariant Onward(buf, View()) == HttpSpec.Analyze(buf, before)
        decreases |buf| - next, Order(state)
      {
        ghost var m := View();
        match state {
          case Headers =>
            v := ParseHeaders(buf);
            if !v.Complete? {
              return;
            }
            OnwardHeaders(buf, m, View());
          case Body =>
            if Chunked in flags {
              OnwardBody(buf, m);
              state := ChunkSize;
            } else if CntLen in flags && bodyLen != 0 {
              return Spins;
            } else {
              state := Done;
              return Complete;
            }
          case ChunkSize =>
            var done := ParseChunkSize(buf);
            if !done {
              return Wait;
            }
            OnwardSize(buf, m, View());
          case ChunkData =>
            var passed := PassChunk(buf);
            if !passed {
              return Wait;
            }
          case Done =>
            return Complete;
        }
      }
    }
  }
}
