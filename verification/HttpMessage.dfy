/**
 Whole chunked messages: header lines, encoded chunks and the last line, arriving in any pieces.
 */
module HttpMessage {
  import opened Common
  import opened HttpLines
  import opened HttpSpec
  import opened HttpResume
  import opened HttpFraming
  import opened HttpFields
  import opened HttpNumbers

  // ---------------------------------------------------------------- lengths

  lemma ValueInBuffer(buf: seq<Byte>, p: nat, line: seq<Byte>, f: Field, name: seq<Byte>, value: seq<Byte>)
    requires Holds(buf, p, line) && Has(line, f, name, value)
    ensures Holds(buf, p + f.value.pos, value) && p + f.value.pos + |value| < |buf| && IsSpace(buf[p + f.value.pos + |value|])
  {
    var v, e := f.value.pos, f.value.pos + |value|;
    assert line == line[..v] + line[v..];
    HoldsParts(buf, p, line[..v], line[v..]);
    assert line[v..] == value + line[e..];
    HoldsParts(buf, p + v, value, line[e..]);
    HoldsAt(buf, p, line, e);
  }

  lemma LengthLine(buf: seq<Byte>, p: nat, line: seq<Byte>, f: Field)
    requires p <= |buf| && Text(buf, p) == Some(line) && FieldOf(line) == Some(f) && !Blank(line) && f.length
    ensures p + f.value.pos <= |buf| && ReadLine(buf, p) == Headed(f, Length(buf, p + f.value.pos), p + |line|)
    ensures Holds(buf, p, line)
  {
  }

  lemma ReadsBack(buf: seq<Byte>, at: nat, value: seq<Byte>, n: nat)
    requires value == DecText(n) && Holds(buf, at, value) && at + |value| < |buf| && IsSpace(buf[at + |value|])
    ensures Length(buf, at) == Min(n, 0x7FFF_FFFF_FFFF_FFFF)
  {
    LengthRoundTrip(buf, at, n);
  }

  lemma ValueAt(buf: seq<Byte>, p: nat, line: seq<Byte>, f: Field, name: seq<Byte>, value: seq<Byte>) returns (at: nat)
    requires Holds(buf, p, line) && Has(line, f, name, value)
    ensures at == p + f.value.pos && Holds(buf, at, value) && at + |value| < |buf| && IsSpace(buf[at + |value|])
  {
    at := p + f.value.pos;
    ValueInBuffer(buf, p, line, f, name, value);
  }

  lemma LengthField(line: seq<Byte>, name: seq<Byte>, value: seq<Byte>, l: Layout) returns (f: Field)
    requires Spells(line, name, value, l) && KnownBy(name).ContentLength?
    ensures |line| > 0 && FieldOf(line) == Some(f) && !Blank(line) && f.length && Has(line, f, name, value)
  {
    f := FieldSpelled(line, name, value, l, ColonAt(name, l));
    FlagsExactly(line, name, value, l, CntLen);
  }

  lemma LengthAt(buf: seq<Byte>, p: nat, line: seq<Byte>, f: Field, at: nat, len: nat)
    requires p <= |buf| && Text(buf, p) == Some(line) && FieldOf(line) == Some(f) && !Blank(line) && f.length
    requires at == p + f.value.pos <= |buf| && Length(buf, at) == len
    ensures ReadLine(buf, p).Headed? && ReadLine(buf, p).field.length && ReadLine(buf, p).length == len
  {
    LengthLine(buf, p, line, f);
  }

  /** A header line whose name is taken for Content-Length and whose value is a number in decimal is
      read as that number, or as 2^63 - 1 if it is larger. */
  lemma LengthExactly(buf: seq<Byte>, p: nat, line: seq<Byte>, name: seq<Byte>, value: seq<Byte>, l: Layout, n: nat)
    requires p <= |buf| && Text(buf, p) == Some(line) && Spells(line, name, value, l)
    requires KnownBy(name).ContentLength? && value == DecText(n)
    ensures var r := ReadLine(buf, p); r.Headed? && r.field.length && r.length == Min(n, 0x7FFF_FFFF_FFFF_FFFF)
  {
    var f := LengthField(line, name, value, l);
    TextHolds(buf, p, line);
    var at := ValueAt(buf, p, line, f, name, value);
    ReadsBack(buf, at, value, n);
    LengthAt(buf, p, line, f, at, Min(n, 0x7FFF_FFFF_FFFF_FFFF));
  }

  // ---------------------------------------------------------------- chunked messages

  /** The bytes from `p` on are header lines and the empty line, and nothing more. */
  ghost predicate HeadersFill(head: seq<Byte>, p: nat)
    requires p <= |head|
    decreases |head| - p
  {
    var l := ReadLine(head, p);
    if l.Last? then l.end == |head| else l.Headed? && HeadersFill(head, l.end)
  }

  lemma {:induction false} FilledParses(head: seq<Byte>, m: Msg, p: nat)
    requires p <= |head| && HeadersFill(head, p)
    ensures ParseHeaders(head, m, p).1.Complete? && ParseHeaders(head, m, p).0.next == |head|
    decreases |head| - p
  {
    var l := ReadLine(head, p);
    if l.Headed? {
      FilledParses(head, Apply(m, l.field, p, l.length), l.end);
    }
  }

  /** In front of a body the same headers are read. */
  lemma HeadersFirst(buf: seq<Byte>, head: seq<Byte>, m: Msg)
    requires m.next <= |head| <= |buf| && buf[..|head|] == head && HeadersFill(head, m.next)
    requires Chunked in m.flags || AnnouncedIn(head, m.next, Chunked)
    ensures var h, g := ParseHeaders(buf, m, m.next), ParseHeaders(head, m, m.next).0;
      h.1.Complete? && h.0.next == |head| && Chunked in h.0.flags && h.0.flags == g.flags && h.0.headers == g.headers
  {
    FilledParses(head, m, m.next);
    ParseCollects(head, m, m.next);
    SaysExactly(head, m.next, Chunked);
    HeadersResume(false, buf, |head|, m, m, m.next);
  }

  /** The message while its first size line is awaited. */
  ghost function AtBody(buf: seq<Byte>, m: Msg): Msg
    requires m.next <= |buf|
  {
    ParseHeaders(buf, m, m.next).0.(state := ChunkSize)
  }

  /** One call on the whole message. */
  lemma OneCall(buf: seq<Byte>, head: seq<Byte>, m: Msg, chunks: seq<Chunk>, zeros: seq<Byte>, ext: seq<Byte>, end: nat)
    requires m.state.Headers? && m.next <= |head| <= |buf| && buf[..|head|] == head && HeadersFill(head, m.next)
    requires Chunked in m.flags || AnnouncedIn(head, m.next, Chunked)
    requires forall i :: 0 <= i < |chunks| ==> Proper(chunks[i])
    requires Written(zeros, ext) && ValueAfter(0, zeros) == 0
    requires Holds(buf, |head|, Encode(chunks) + SizeLine(zeros, ext))
    requires end == |head| + |Encode(chunks)| + |SizeLine(zeros, ext)|
    ensures AtBody(buf, m).next == |head| && Carries(buf, Passed(buf, AtBody(buf, m)), chunks)
    ensures Analyze(buf, m) == (Closed(AtBody(buf, m), end), Complete)
    ensures var g := ParseHeaders(head, m, m.next).0; AtBody(buf, m).flags == g.flags && AtBody(buf, m).headers == g.headers
  {
    HeadersFirst(buf, head, m);
    ChunkedBody(buf, AtBody(buf, m), chunks, zeros, ext, end);
  }

  /**
   A chunked message however cut: header lines that say chunked, encoded chunks and a line of size
   zero, followed by anything and fed to the analyzer in any pieces, leave it done just past that
   last line, with the headers and flags of the header lines alone.
   */
  lemma ChunkedMessage(buf: seq<Byte>, head: seq<Byte>, m: Msg, chunks: seq<Chunk>, zeros: seq<Byte>, ext: seq<Byte>, cuts: seq<nat>)
    requires m.state.Headers? && m.next <= |head| <= |buf| && buf[..|head|] == head && HeadersFill(head, m.next)
    requires Chunked in m.flags || AnnouncedIn(head, m.next, Chunked)
    requires forall i :: 0 <= i < |chunks| ==> Proper(chunks[i])
    requires Written(zeros, ext) && ValueAfter(0, zeros) == 0
    requires Holds(buf, |head|, Encode(chunks) + SizeLine(zeros, ext))
    requires Cuts(cuts, m.next, |buf|)
    ensures var r, g := Feed(buf, cuts, m).0, ParseHeaders(head, m, m.next).0;
      && r.state.Done? && r.chunkLen == 0 && r.next == |head| + |Encode(chunks)| + |SizeLine(zeros, ext)|
      && r.headers == g.headers && r.flags == g.flags
  {
    OneCall(buf, head, m, chunks, zeros, ext, |head| + |Encode(chunks)| + |SizeLine(zeros, ext)|);
    Incremental(false, buf, cuts, m);
  }

  // ---------------------------------------------------------------- what the headers come to

  /** The bytes of a recorded header. */
  ghost predicate Recorded(buf: seq<Byte>, h: Header, name: seq<Byte>, value: seq<Byte>) {
    && Holds(buf, h.name.pos, name) && h.name.len == |name|
    && Holds(buf, h.value.pos, value) && h.value.len == |value|
  }

  /** It is the one on the line at `p`. */
  ghost predicate RecordedAt(buf: seq<Byte>, p: nat, h: Header)
    requires HeaderAt(buf, p)
  {
    exists name, value, l :: Spells(Text(buf, p).value, name, value, l) && Recorded(buf, h, name, value)
  }

  /** The headers are those of the lines from `p` on, one each, in order. */
  ghost predicate Records(buf: seq<Byte>, p: nat, hs: seq<Header>)
    requires p <= |buf|
    decreases |buf| - p
  {
    if !HeaderAt(buf, p) then hs == []
    else hs != [] && RecordedAt(buf, p, hs[0]) && Records(buf, LineEnd(buf, p), hs[1..])
  }

  lemma RecordsMore(buf: seq<Byte>, p: nat, h: Header, rest: seq<Header>)
    requires HeaderAt(buf, p) && RecordedAt(buf, p, h) && Records(buf, LineEnd(buf, p), rest)
    ensures Records(buf, p, [h] + rest)
  {
    assert ([h] + rest)[1..] == rest;
  }

  lemma RecordedLine(buf: seq<Byte>, p: nat, line: seq<Byte>, f: Field, name: seq<Byte>, value: seq<Byte>)
    requires Holds(buf, p, line) && Has(line, f, name, value)
    ensures Recorded(buf, Header(Shifted(f.name, p), Shifted(f.value, p)), name, value)
  {
    ValueInBuffer(buf, p, line, f, name, value);
    assert line == line[..|name|] + line[|name|..];
    HoldsParts(buf, p, line[..|name|], line[|name|..]);
  }

  lemma SpellingWith(line: seq<Byte>, f: Field) returns (name: seq<Byte>, value: seq<Byte>, l: Layout)
    requires |line| > 0 && line[|line| - 1] == 10 && FieldOf(line) == Some(f)
    ensures Spells(line, name, value, l) && Has(line, f, name, value)
  {
    var colon := ColonIn(line);
    name, value, l := Spelling(line, colon);
    var g := FieldSpelled(line, name, value, l, ColonAt(name, l));
  }

  lemma TextHolds(buf: seq<Byte>, p: nat, line: seq<Byte>)
    requires p <= |buf| && Text(buf, p) == Some(line)
    ensures Holds(buf, p, line) && |line| > 0 && line[|line| - 1] == 10
  {
  }

  lemma RecordsLine(buf: seq<Byte>, p: nat, line: seq<Byte>, f: Field)
    requires HeaderAt(buf, p) && Text(buf, p) == Some(line) && FieldOf(line) == Some(f)
    ensures RecordedAt(buf, p, Header(Shifted(f.name, p), Shifted(f.value, p)))
  {
    TextHolds(buf, p, line);
    var name, value, l := SpellingWith(line, f);
    RecordedLine(buf, p, line, f, name, value);
  }

  /** `hs` adds the headers of the lines from `p` on to `before`. */
  ghost predicate Extends(buf: seq<Byte>, p: nat, before: seq<Header>, hs: seq<Header>)
    requires p <= |buf|
  {
    |before| <= |hs| && hs[..|before|] == before && Records(buf, p, hs[|before|..])
  }

  lemma ExtendsMore(buf: seq<Byte>, p: nat, before: seq<Header>, h: Header, hs: seq<Header>)
    requires HeaderAt(buf, p) && RecordedAt(buf, p, h) && Extends(buf, LineEnd(buf, p), before + [h], hs)
    ensures Extends(buf, p, before, hs)
  {
    var n := |before|;
    RecordsMore(buf, p, h, hs[n + 1..]);
    assert hs[n] == hs[..n + 1][n] == h;
    assert hs[n..] == [h] + hs[n + 1..];
    assert hs[..n] == hs[..n + 1][..n] == before;
  }

  /** The parser records exactly the headers of the lines it passes, each with the bytes of its name
      and value. */
  lemma {:induction false} HeadersExactly(buf: seq<Byte>, m: Msg, p: nat)
    requires p <= |buf|
    ensures Extends(buf, p, m.headers, ParseHeaders(buf, m, p).0.headers)
    decreases |buf| - p
  {
    HeaderRead(buf, p);
    if HeaderAt(buf, p) {
      var l := ReadLine(buf, p);
      var h := Header(Shifted(l.field.name, p), Shifted(l.field.value, p));
      RecordsLine(buf, p, Text(buf, p).value, l.field);
      HeadersExactly(buf, Apply(m, l.field, p, l.length), l.end);
      ExtendsMore(buf, p, m.headers, h, ParseHeaders(buf, m, p).0.headers);
    }
  }

  // ---------------------------------------------------------------- how parsing ends

  /** The header lines from `p` on come to a line that is blank, or to one that is neither blank nor
      has a colon. */
  ghost predicate ComesTo(buf: seq<Byte>, p: nat, blank: bool)
    requires p <= |buf|
  {
    exists at: nat :: at <= |buf| && LineStart(buf, p, at) && StopsAt(buf, at, blank)
  }

  ghost predicate StopsAt(buf: seq<Byte>, at: nat, blank: bool)
    requires at <= |buf|
  {
    Text(buf, at).Some? && var line := Text(buf, at).value; if blank then Blank(line) else !Blank(line) && 58 !in line
  }

  lemma NoColon(line: seq<Byte>)
    requires |line| > 0 && line[|line| - 1] == 10
    ensures 58 in line <==> FieldOf(line).Some?
  {
    if FieldOf(line).Some? {
      var colon := ColonIn(line);
    }
    if 58 in line {
      var i :| 0 <= i < |line| && line[i] == 58;
      FindSkips(line[..|line| - 1], 0, 58);
      assert line[..|line| - 1][i] == 58;
    }
  }

  lemma StopsRead(buf: seq<Byte>, p: nat)
    requires p <= |buf|
    ensures StopsAt(buf, p, true) <==> ReadLine(buf, p).Last?
    ensures StopsAt(buf, p, false) <==> ReadLine(buf, p).Malformed?
  {
    if Text(buf, p).Some? {
      TextHolds(buf, p, Text(buf, p).value);
      NoColon(Text(buf, p).value);
    }
  }

  lemma ComesNext(buf: seq<Byte>, p: nat, blank: bool)
    requires p <= |buf|
    ensures ComesTo(buf, p, blank) <==> StopsAt(buf, p, blank) || (HeaderAt(buf, p) && ComesTo(buf, LineEnd(buf, p), blank))
  {
    if ComesTo(buf, p, blank) {
      var at: nat :| at <= |buf| && LineStart(buf, p, at) && StopsAt(buf, at, blank);
    }
    if HeaderAt(buf, p) && ComesTo(buf, LineEnd(buf, p), blank) {
      var at: nat :| at <= |buf| && LineStart(buf, LineEnd(buf, p), at) && StopsAt(buf, at, blank);
      assert LineStart(buf, p, at);
    }
    if StopsAt(buf, p, blank) {
      assert LineStart(buf, p, p);
    }
  }

  /** Header parsing is complete exactly when the header lines come to a blank line, fails exactly when
      they come to a line without a colon, and waits otherwise. */
  lemma {:induction false} VerdictExactly(buf: seq<Byte>, m: Msg, p: nat)
    requires p <= |buf|
    ensures var v := ParseHeaders(buf, m, p).1;
      (v.Complete? <==> ComesTo(buf, p, true)) && (v.Fail? <==> ComesTo(buf, p, false)) && (v.Complete? || v.Fail? || v.Wait?)
    decreases |buf| - p
  {
    HeaderRead(buf, p);
    StopsRead(buf, p);
    ComesNext(buf, p, true);
    ComesNext(buf, p, false);
    var l := ReadLine(buf, p);
    if l.Headed? {
      VerdictExactly(buf, Apply(m, l.field, p, l.length), l.end);
    }
  }

  /** Header lines that announce neither chunks nor a length, in any pieces and followed by anything,
      are a whole message: done right behind the blank line. */
  lemma PlainMessage(buf: seq<Byte>, head: seq<Byte>, m: Msg, cuts: seq<nat>)
    requires m.state.Headers? && m.flags == {} && m.next <= |head| <= |buf| && buf[..|head|] == head
    requires HeadersFill(head, m.next) && !AnnouncedIn(head, m.next, Chunked) && !AnnouncedIn(head, m.next, CntLen)
    requires Cuts(cuts, m.next, |buf|)
    ensures var r := Feed(buf, cuts, m).0; r.state.Done? && r.next == |head|
    ensures Analyze(buf, m).1.Complete?
  {
    FilledParses(head, m, m.next);
    ParseCollects(head, m, m.next);
    SaysExactly(head, m.next, Chunked);
    SaysExactly(head, m.next, CntLen);
    HeadersResume(false, buf, |head|, m, m, m.next);
    assert Analyze(buf, m) == AfterHeaders(buf, ParseHeaders(buf, m, m.next).0);
    Incremental(false, buf, cuts, m);
  }

  /** A message that is done or in error is left alone, whatever arrives. */
  lemma FinishedStays(buf: seq<Byte>, m: Msg, cuts: seq<nat>)
    requires (m.state.Done? || m.state.Error?) && Cuts(cuts, m.next, |buf|)
    ensures Feed(buf, cuts, m) == (m, Wait)
    decreases |cuts|
  {
    if |cuts| > 1 {
      FinishedStays(buf, m, cuts[1..]);
    }
  }
}
