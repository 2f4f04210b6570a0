/**
 When a call on a message that is not chunked and announces a body never returns, do the calls on
 its pieces never return either? Exactly when the last Content-Length line has a value.
 */
module HttpCuts {
  import opened Common
  import opened HttpLines
  import opened HttpSpec
  import opened HttpResume

  /** A Content-Length line from `p` on, before the empty line. */
  ghost predicate HasLength(buf: seq<Byte>, p: nat)
    requires p <= |buf|
    decreases |buf| - p
  {
    var l := ReadLine(buf, p);
    l.Headed? && (l.field.length || HasLength(buf, l.end))
  }

  /** There is one and the last has no value. */
  ghost predicate LastLengthBlank(buf: seq<Byte>, p: nat)
    requires p <= |buf|
    decreases |buf| - p
  {
    var l := ReadLine(buf, p);
    l.Headed? && if HasLength(buf, l.end) then LastLengthBlank(buf, l.end) else !HasValue(l, p)
  }

  // ---------------------------------------------------------------- a value on the last line

  /** Two messages with the same length, or a length line still to come. */
  ghost predicate Settled(buf: seq<Byte>, p: nat, a: Msg, b: Msg)
    requires p <= |buf|
  {
    a.bodyLen == b.bodyLen || HasLength(buf, p)
  }

  lemma {:induction false} LengthSim(buf: seq<Byte>, a: Msg, b: Msg, p: nat)
    requires p <= |buf| && Settled(buf, p, a, b)
    ensures ParseHeaders(buf, a, p).0.bodyLen == ParseHeaders(buf, b, p).0.bodyLen
    decreases |buf| - p
  {
    var l := ReadLine(buf, p);
    if l.Headed? {
      LengthSim(buf, Apply(a, l.field, p, l.length), Apply(b, l.field, p, l.length), l.end);
    }
  }

  lemma {:induction false} NoneIsNotBlank(buf: seq<Byte>, p: nat)
    requires p <= |buf| && !HasLength(buf, p)
    ensures !LastLengthBlank(buf, p)
    decreases |buf| - p
  {
    var l := ReadLine(buf, p);
    if l.Headed? {
      NoneIsNotBlank(buf, l.end);
    }
  }

  lemma NotBlankLater(buf: seq<Byte>, p: nat)
    requires p <= |buf| && !LastLengthBlank(buf, p) && ReadLine(buf, p).Headed?
    ensures !LastLengthBlank(buf, ReadLine(buf, p).end)
    ensures HasValue(ReadLine(buf, p), p) || HasLength(buf, ReadLine(buf, p).end)
  {
    var l := ReadLine(buf, p);
    if !HasLength(buf, l.end) {
      NoneIsNotBlank(buf, l.end);
    }
  }

  /** The length found on a part of the buffer, or after taking up where it ended. */
  ghost predicate LengthFound(buf: seq<Byte>, r: (Msg, Verdict), length: nat)
    requires r.1.Wait? ==> r.0.next <= |buf|
  {
    && (r.1.Complete? ==> r.0.bodyLen == length)
    && (r.1.Wait? ==> !LastLengthBlank(buf, r.0.next) && ParseHeaders(buf, r.0, r.0.next).0.bodyLen == length)
  }

  /** The line at `p` as a part shows it, applied to two messages that are settled. */
  lemma LineSettles(buf: seq<Byte>, c: nat, a: Msg, b: Msg, p: nat)
    requires p <= c <= |buf| && Settled(buf, p, a, b) && !LastLengthBlank(buf, p)
    requires Text(buf[..c], p).Some? && ReadLine(buf[..c], p).Headed?
    ensures var l, k := ReadLine(buf[..c], p), ReadLine(buf, p);
      && k.Headed? && k.field == l.field && k.end == l.end <= c
      && Settled(buf, l.end, Apply(a, l.field, p, l.length), Apply(b, k.field, p, k.length))
  {
    LineLocal(false, buf, c, p);
    NotBlankLater(buf, p);
    if HasValue(ReadLine(buf, p), p) {
      LineLocal(true, buf, c, p);
    }
  }

  lemma {:induction false} LengthResume(buf: seq<Byte>, c: nat, a: Msg, b: Msg, p: nat)
    requires p <= c <= |buf| && Settled(buf, p, a, b) && !LastLengthBlank(buf, p)
    ensures LengthFound(buf, ParseHeaders(buf[..c], a, p), ParseHeaders(buf, b, p).0.bodyLen)
    decreases c - p
  {
    var l := ReadLine(buf[..c], p);
    if l.Partial? {
      LengthSim(buf, a.(next := p), b, p);
    } else if l.Headed? {
      LineSettles(buf, c, a, b, p);
      NotBlankLater(buf, p);
      var k := ReadLine(buf, p);
      LengthResume(buf, c, Apply(a, l.field, p, l.length), Apply(b, k.field, p, k.length), l.end);
    } else if l.Last? {
      LineLocal(false, buf, c, p);
    }
  }

  /** A call that would never return on the whole buffer and whose last length line has a value. */
  ghost predicate Doomed(buf: seq<Byte>, m: Msg) {
    m.state.Headers? && m.next <= |buf| && Analyze(buf, m).1.Spins? && !LastLengthBlank(buf, m.next)
  }

  lemma DoomedByFlags(buf: seq<Byte>, m: Msg)
    requires m.state.Headers? && m.next <= |buf|
    ensures Analyze(buf, m).1.Spins? <==>
      var r := ParseHeaders(buf, m, m.next);
      r.1.Complete? && CntLen in r.0.flags && Chunked !in r.0.flags && r.0.bodyLen != 0
  {
    assert Analyze(buf, m) == AfterParse(buf, ParseHeaders(buf, m, m.next));
  }

  /** On a part of the buffer it does not return either, or it waits and is doomed still. */
  lemma DoomedResume(buf: seq<Byte>, c: nat, m: Msg)
    requires Doomed(buf, m) && m.next <= c <= |buf|
    ensures var r := Analyze(buf[..c], m); r.1.Spins? || (r.1.Wait? && r.0.next <= c && Doomed(buf, r.0))
  {
    DoomedByFlags(buf, m);
    HeadersResume(false, buf, c, m, m, m.next);
    LengthResume(buf, c, m, m, m.next);
    var r := ParseHeaders(buf[..c], m, m.next);
    assert Analyze(buf[..c], m) == AfterParse(buf[..c], r);
    if r.1.Wait? {
      DoomedByFlags(buf, r.0);
    }
  }

  lemma {:induction false} DoomedFeed(buf: seq<Byte>, cuts: seq<nat>, m: Msg)
    requires Doomed(buf, m) && Cuts(cuts, m.next, |buf|)
    ensures Feed(buf, cuts, m).1.Spins?
    decreases |cuts|
  {
    var r := Analyze(buf[..cuts[0]], m);
    if |cuts| == 1 {
      assert buf[..cuts[0]] == buf;
    } else {
      DoomedResume(buf, cuts[0], m);
      if !r.1.Spins? {
        DoomedFeed(buf, cuts[1..], r.0);
      }
    }
  }

  // ---------------------------------------------------------------- no value on the last line

  /** Where the last Content-Length line ends. */
  ghost function LengthEnd(buf: seq<Byte>, p: nat): (e: nat)
    requires p <= |buf| && HasLength(buf, p)
    ensures p < e <= |buf|
    decreases |buf| - p
  {
    var l := ReadLine(buf, p);
    if HasLength(buf, l.end) then LengthEnd(buf, l.end) else l.end
  }

  lemma BlankIsThere(buf: seq<Byte>, p: nat)
    requires p <= |buf| && LastLengthBlank(buf, p)
    ensures HasLength(buf, p)
  {
  }

  lemma {:induction false} FindShown(buf: seq<Byte>, c: nat, p: nat, b: int)
    requires p <= c <= |buf| && Find(buf, p, b) < c
    ensures Find(buf[..c], p, b) == Find(buf, p, b)
    decreases c - p
  {
    if buf[p] != b {
      FindShown(buf, c, p + 1, b);
    }
  }

  /** A line that ends within a part is seen in it. */
  lemma LineShown(buf: seq<Byte>, c: nat, p: nat)
    requires p <= |buf| && ReadLine(buf, p).Headed? && ReadLine(buf, p).end <= c <= |buf|
    ensures Text(buf[..c], p).Some? && SameLine(false, ReadLine(buf[..c], p), ReadLine(buf, p))
  {
    var line := Text(buf, p).value;
    FindShown(buf, c, p, LF);
    LineLocal(false, buf, c, p);
  }

  /** At the very end of the data a missing value reads as zero. */
  lemma BlankReadsZero(buf: seq<Byte>, p: nat)
    requires p <= |buf| && ReadLine(buf, p).Headed? && ReadLine(buf, p).end == |buf|
    requires !HasValue(ReadLine(buf, p), p)
    ensures ReadLine(buf, p).length == 0
  {
    var at := p + ReadLine(buf, p).field.value.pos;
    var line := Text(buf, p).value;
    assert at == |buf| - 1 && buf[at] == LF;
    assert SkipSpace(buf, at, |buf|) == SkipSpace(buf, at + 1, |buf|) == |buf|;
  }

  lemma {:induction false} CutAtBlank(buf: seq<Byte>, m: Msg, p: nat)
    requires p <= |buf| && HasLength(buf, p) && LastLengthBlank(buf, p)
    ensures var e := LengthEnd(buf, p); var r := ParseHeaders(buf[..e], m, p);
      r.1.Wait? && r.0.next == e && r.0.bodyLen == 0 && !HasLength(buf, e)
    decreases |buf| - p
  {
    var e := LengthEnd(buf, p);
    var l := ReadLine(buf, p);
    if HasLength(buf, l.end) {
      LineShown(buf, e, p);
      var k := ReadLine(buf[..e], p);
      CutAtBlank(buf, Apply(m, k.field, p, k.length), l.end);
    } else {
      LineShown(buf, e, p);
      var k := ReadLine(buf[..e], p);
      BlankReadsZero(buf[..e], p);
      var a := Apply(m, k.field, p, k.length);
      assert ReadLine(buf[..e], e).Partial?;
      assert ParseHeaders(buf[..e], a, e) == (a.(next := e), Wait);
    }
  }

  lemma {:induction false} LengthStays(buf: seq<Byte>, m: Msg, p: nat)
    requires p <= |buf| && !HasLength(buf, p)
    ensures ParseHeaders(buf, m, p).0.bodyLen == m.bodyLen
    decreases |buf| - p
  {
    var l := ReadLine(buf, p);
    if l.Headed? {
      LengthStays(buf, Apply(m, l.field, p, l.length), l.end);
    }
  }

  /** Cut right behind that line, the message completes. */
  lemma CutReturns(buf: seq<Byte>, m: Msg) returns (cuts: seq<nat>)
    requires m.state.Headers? && m.next <= |buf| && Analyze(buf, m).1.Spins? && LastLengthBlank(buf, m.next)
    ensures Cuts(cuts, m.next, |buf|) && Feed(buf, cuts, m).1.Complete?
  {
    BlankIsThere(buf, m.next);
    var e := LengthEnd(buf, m.next);
    cuts := [e, |buf|];
    DoomedByFlags(buf, m);
    HeadersResume(false, buf, e, m, m, m.next);
    CutAtBlank(buf, m, m.next);
    var x := ParseHeaders(buf[..e], m, m.next).0;
    assert Analyze(buf[..e], m) == (x, Wait);
    LengthStays(buf, x, e);
    assert buf[..|buf|] == buf;
    assert Analyze(buf, x) == AfterParse(buf, ParseHeaders(buf, x, e));
    assert cuts[1..] == [|buf|];
    assert Feed(buf, cuts[1..], x) == Analyze(buf, x);
  }

  // ---------------------------------------------------------------- exactly

  /** Whatever the cuts, the calls on the pieces fail to return just when the one call does. */
  ghost predicate CutsAgree(buf: seq<Byte>, m: Msg) {
    forall cuts :: Cuts(cuts, m.next, |buf|) ==> (Feed(buf, cuts, m).1.Spins? <==> Analyze(buf, m).1.Spins?)
  }

  lemma AgreesUnlessBlank(buf: seq<Byte>, m: Msg, cuts: seq<nat>)
    requires m.next <= |buf| && Cuts(cuts, m.next, |buf|)
    requires Analyze(buf, m).1.Spins? && m.state.Headers? ==> !LastLengthBlank(buf, m.next)
    ensures Feed(buf, cuts, m).1.Spins? <==> Analyze(buf, m).1.Spins?
  {
    if !Analyze(buf, m).1.Spins? {
      Incremental(false, buf, cuts, m);
    } else if m.state.Headers? {
      DoomedFeed(buf, cuts, m);
    } else {
      Incremental(true, buf, cuts, m);
    }
  }

  /** Cutting makes no difference if and only if the header lines do not announce a plain body, or
      the last Content-Length line has a value. */
  lemma CuttingExactly(buf: seq<Byte>, m: Msg)
    requires m.next <= |buf|
    ensures CutsAgree(buf, m) <==> !(m.state.Headers? && Stuck(buf, m) && LastLengthBlank(buf, m.next))
  {
    if m.state.Headers? {
      SpinsExactly(buf, m);
    }
    if m.state.Headers? && Stuck(buf, m) && LastLengthBlank(buf, m.next) {
      var cuts := CutReturns(buf, m);
    } else {
      forall cuts | Cuts(cuts, m.next, |buf|)
        ensures Feed(buf, cuts, m).1.Spins? <==> Analyze(buf, m).1.Spins?
      {
        AgreesUnlessBlank(buf, m, cuts);
      }
    }
  }
}
