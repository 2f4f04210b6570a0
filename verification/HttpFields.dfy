/**
 Which header line says what, stated over the bytes of the line.
 */
module HttpFields {
  import opened Common
  import opened HttpLines
  import opened HttpSpec

  // ---------------------------------------------------------------- names and tokens

  /** The byte is the character, or the capital of the lower-case letter. */
  predicate Alike(b: int, c: char) {
    b == c as int || ('a' <= c <= 'z' && b == c as int - 32)
  }

  predicate AlikeUpTo(s: seq<Byte>, t: string, n: nat)
    requires n <= |s| && n <= |t|
  {
    forall i :: 0 <= i < n ==> Alike(s[i], t[i])
  }

  /** A known header name or token: no capitals, nothing that is not visible. */
  ghost predicate Plain(t: string) {
    forall i :: 0 <= i < |t| ==> 33 <= t[i] as int < 127 && !('A' <= t[i] <= 'Z')
  }

  /** The name is a prefix of the header's, letter case aside, or has a NUL byte right behind all of it. */
  predicate Abbreviates(name: seq<Byte>, header: string) {
    if |name| <= |header| then AlikeUpTo(name, header, |name|)
    else name[|header|] == 0 && AlikeUpTo(name, header, |header|)
  }

  predicate Starts(value: seq<Byte>, token: string) {
    |token| <= |value| && AlikeUpTo(value, token, |token|)
  }

  lemma LowerIsAlike(b: Byte, c: char)
    requires 33 <= c as int < 127 && !('A' <= c <= 'Z')
    ensures Lower(b) == c as int <==> Alike(b, c)
  {
  }

  lemma AlikeTails(s: seq<Byte>, t: string, n: nat)
    requires 0 < n <= |s| && n <= |t|
    ensures AlikeUpTo(s, t, n) <==> Alike(s[0], t[0]) && AlikeUpTo(s[1..], t[1..], n - 1)
  {
    if Alike(s[0], t[0]) && AlikeUpTo(s[1..], t[1..], n - 1) {
      forall i | 0 <= i < n ensures Alike(s[i], t[i]) {
        if i > 0 {
          assert Alike(s[1..][i - 1], t[1..][i - 1]);
        }
      }
    } else if AlikeUpTo(s, t, n) {
      forall i | 0 <= i < n - 1 ensures Alike(s[1..][i], t[1..][i]) {
        assert Alike(s[i + 1], t[i + 1]);
      }
    }
  }

  lemma {:induction false} NameMatches(name: seq<Byte>, header: string)
    requires Plain(header)
    ensures Matches(name, header, |name|) <==> Abbreviates(name, header)
    decreases |name|
  {
    if name != [] && header != "" {
      LowerIsAlike(name[0], header[0]);
      NameMatches(name[1..], header[1..]);
      AlikeTails(name, header, Min(|name|, |header|));
    }
  }

  lemma {:induction false} TokenMatches(value: seq<Byte>, token: string)
    requires Plain(token)
    ensures Matches(value, token, |token|) <==> Starts(value, token)
    decreases |token|
  {
    if value != [] && token != "" {
      LowerIsAlike(value[0], token[0]);
      TokenMatches(value[1..], token[1..]);
      if |token| <= |value| {
        AlikeTails(value, token, |token|);
      }
    }
  }

  // ---------------------------------------------------------------- lines

  ghost predicate Pad(s: seq<Byte>) {
    forall i :: 0 <= i < |s| ==> s[i] == 32 || 9 <= s[i] <= 13
  }

  /** Where name and value are in a line: the name in front, white space around colon and value. */
  datatype Layout = Layout(before: seq<Byte>, between: seq<Byte>, after: seq<Byte>)

  /** The line with this name and value, written with these white spaces. */
  function LineText(name: seq<Byte>, value: seq<Byte>, l: Layout): seq<Byte> {
    (name + l.before) + ([58] + (l.between + (value + (l.after + [10]))))
  }

  /** Name and value are themselves free of white space where it would be cut, and the name of colons. */
  ghost predicate Tight(name: seq<Byte>, value: seq<Byte>) {
    && 58 !in name && (name != [] ==> !IsSpace(name[|name| - 1]))
    && (value != [] ==> !IsSpace(value[0]) && !IsSpace(value[|value| - 1]))
  }

  /** And the rest is white space. */
  ghost predicate Padded(name: seq<Byte>, value: seq<Byte>, l: Layout) {
    Tight(name, value) && Pad(l.before) && Pad(l.between) && Pad(l.after)
  }

  ghost predicate Spells(line: seq<Byte>, name: seq<Byte>, value: seq<Byte>, l: Layout) {
    line == LineText(name, value, l) && Padded(name, value, l)
  }

  /** The offset of the colon. */
  function ColonAt(name: seq<Byte>, l: Layout): nat {
    |name| + |l.before|
  }

  lemma LineParts(line: seq<Byte>, name: seq<Byte>, value: seq<Byte>, l: Layout, colon: nat)
    requires line == LineText(name, value, l) && colon == ColonAt(name, l)
    ensures colon + 1 < |line| && line[..colon] == name + l.before && line[colon] == 58
    ensures line[colon + 1..] == l.between + (value + (l.after + [10]))
  {
  }

  /** The part in front of the colon: the name, then white space. */
  lemma NamePart(line: seq<Byte>, name: seq<Byte>, value: seq<Byte>, l: Layout, colon: nat)
    requires Spells(line, name, value, l) && colon == ColonAt(name, l)
    ensures colon + 1 < |line| && line[..|name|] == name && (name != [] ==> !IsSpace(line[|name| - 1]))
    ensures forall i :: |name| <= i < colon ==> IsSpace(line[i])
    ensures forall i :: 0 <= i < colon ==> line[i] != 58
  {
    LineParts(line, name, value, l, colon);
    forall i | 0 <= i < colon ensures line[i] == (name + l.before)[i] {
      assert line[..colon][i] == line[i];
    }
    forall i | 0 <= i < colon ensures line[i] != 58 {
      if i < |name| {
        assert name[i] in name;
      } else {
        assert line[i] == l.before[i - |name|];
      }
    }
  }

  /** The part behind it: white space, the value at `v`, white space. */
  lemma ValuePart(line: seq<Byte>, name: seq<Byte>, value: seq<Byte>, l: Layout, colon: nat, v: nat)
    requires Spells(line, name, value, l) && colon == ColonAt(name, l) && v == colon + 1 + |l.between|
    ensures v + |value| < |line| && line[v..v + |value|] == value
    ensures forall i :: colon < i < v ==> IsSpace(line[i])
    ensures forall i :: v + |value| <= i < |line| ==> IsSpace(line[i])
  {
    LineParts(line, name, value, l, colon);
    var rest := l.between + (value + (l.after + [10]));
    assert |line| == colon + 1 + |rest|;
    forall i | colon < i < |line| ensures line[i] == rest[i - colon - 1] {
      assert line[colon + 1..][i - colon - 1] == line[i];
    }
    forall i | v + |value| <= i < |line| ensures IsSpace(line[i]) {
      assert line[i] == (l.after + [10])[i - v - |value|];
    }
    forall i | 0 <= i < |value| ensures line[v..v + |value|][i] == value[i] {
      assert line[v + i] == rest[|l.between| + i];
    }
  }

  /** Trimmed spans that hold the value, whichever their bounds. */
  lemma SpanIsValue(line: seq<Byte>, value: seq<Byte>, colon: nat, v: nat, pos: nat, len: nat)
    requires colon < v && v + |value| < |line| && line[v..v + |value|] == value
    requires value != [] ==> !IsSpace(value[0]) && !IsSpace(value[|value| - 1])
    requires forall i :: colon < i < v ==> IsSpace(line[i])
    requires forall i :: v + |value| <= i < |line| ==> IsSpace(line[i])
    requires colon < pos <= pos + len < |line|
    requires forall i :: colon < i < pos ==> IsSpace(line[i])
    requires len > 0 ==> !IsSpace(line[pos]) && !IsSpace(line[pos + len - 1])
    requires forall i :: pos + len <= i < |line| - 1 ==> IsSpace(line[i])
    ensures len == |value| && line[pos..pos + len] == value && (value != [] ==> pos == v)
  {
    if value != [] {
      assert line[v] == value[0] && line[v + |value| - 1] == value[|value| - 1];
      assert pos == v;
      assert len == |value|;
    }
  }

  /** The parser's spans of the line: trimmed around the colon. */
  ghost predicate Trims(line: seq<Byte>, colon: nat, f: Field) {
    && colon < |line| && f.name.pos == 0 && f.name.len <= colon < f.value.pos <= f.value.pos + f.value.len < |line|
    && (f.name.len > 0 ==> !IsSpace(line[f.name.len - 1]))
    && (forall i :: f.name.len <= i < colon ==> IsSpace(line[i]))
    && (forall i :: colon < i < f.value.pos ==> IsSpace(line[i]))
    && (f.value.len > 0 ==> !IsSpace(line[f.value.pos]) && !IsSpace(line[f.value.pos + f.value.len - 1]))
    && (forall i :: f.value.pos + f.value.len <= i < |line| - 1 ==> IsSpace(line[i]))
  }

  /** The field has this name and value, and white space to the end of the line. */
  ghost predicate Has(line: seq<Byte>, f: Field, name: seq<Byte>, value: seq<Byte>) {
    && f.name == Span(0, |name|) && |name| <= |line| && line[..|name|] == name
    && f.value.len == |value| && f.value.pos + |value| < |line| && line[f.value.pos..f.value.pos + |value|] == value
    && forall i :: f.value.pos + |value| <= i < |line| ==> IsSpace(line[i])
  }

  /** The name in front of the colon and the value at `v` behind it, with nothing but white space
      around them. */
  ghost predicate Laid(line: seq<Byte>, name: seq<Byte>, value: seq<Byte>, colon: nat, v: nat) {
    && |name| <= colon < v && v + |value| < |line| && line[..|name|] == name && line[v..v + |value|] == value
    && (name != [] ==> !IsSpace(line[|name| - 1])) && (value != [] ==> !IsSpace(value[0]) && !IsSpace(value[|value| - 1]))
    && (forall i :: |name| <= i < colon ==> IsSpace(line[i]))
    && (forall i :: colon < i < v ==> IsSpace(line[i]))
    && (forall i :: v + |value| <= i < |line| ==> IsSpace(line[i]))
  }

  lemma SpelledIsLaid(line: seq<Byte>, name: seq<Byte>, value: seq<Byte>, l: Layout, colon: nat, v: nat)
    requires Spells(line, name, value, l) && colon == ColonAt(name, l) && v == colon + 1 + |l.between|
    ensures Laid(line, name, value, colon, v)
  {
    NamePart(line, name, value, l, colon);
    ValuePart(line, name, value, l, colon, v);
  }

  lemma TrimsToText(line: seq<Byte>, name: seq<Byte>, value: seq<Byte>, colon: nat, v: nat, f: Field)
    requires Laid(line, name, value, colon, v) && Trims(line, colon, f)
    ensures Has(line, f, name, value)
  {
    NameIsSpan(line, colon, |name|, f.name.len);
    SpanIsValue(line, value, colon, v, f.value.pos, f.value.len);
  }

  lemma SpelledTrims(line: seq<Byte>, name: seq<Byte>, value: seq<Byte>, l: Layout, colon: nat, f: Field)
    requires Spells(line, name, value, l) && colon == ColonAt(name, l) && Trims(line, colon, f)
    ensures Has(line, f, name, value)
  {
    SpelledIsLaid(line, name, value, l, colon, colon + 1 + |l.between|);
    TrimsToText(line, name, value, colon, colon + 1 + |l.between|, f);
  }

  lemma FieldTrims(line: seq<Byte>, colon: nat, f: Field)
    requires colon + 1 < |line| && f == ReadField(line, colon)
    ensures Trims(line, colon, f)
  {
    FieldIsTrimmed(line, colon);
  }

  lemma ColonOf(line: seq<Byte>, name: seq<Byte>, value: seq<Byte>, l: Layout, colon: nat)
    requires Spells(line, name, value, l) && colon == ColonAt(name, l)
    ensures colon + 1 < |line| && FieldOf(line) == Some(ReadField(line, colon)) && !Blank(line)
  {
    NamePart(line, name, value, l, colon);
    LineParts(line, name, value, l, colon);
    ColonFound(line, colon);
  }

  /** The parser finds name and value of a line however it is padded. */
  lemma FieldSpelled(line: seq<Byte>, name: seq<Byte>, value: seq<Byte>, l: Layout, colon: nat) returns (f: Field)
    requires Spells(line, name, value, l) && colon == ColonAt(name, l)
    ensures colon + 1 < |line| && FieldOf(line) == Some(f) && !Blank(line) && Has(line, f, name, value)
    ensures f == ReadField(line, colon)
  {
    ColonOf(line, name, value, l, colon);
    f := ReadField(line, colon);
    FieldTrims(line, colon, f);
    SpelledTrims(line, name, value, l, colon, f);
  }

  lemma ColonFound(line: seq<Byte>, colon: nat)
    requires colon + 1 < |line| && line[colon] == 58 && forall i :: 0 <= i < colon ==> line[i] != 58
    ensures FieldOf(line) == Some(ReadField(line, colon)) && !Blank(line)
  {
    FindIs(line[..|line| - 1], 0, 58, colon);
  }

  lemma NameIsSpan(line: seq<Byte>, colon: nat, n: nat, len: nat)
    requires n <= colon < |line| && len <= colon
    requires (n > 0 ==> !IsSpace(line[n - 1])) && forall i :: n <= i < colon ==> IsSpace(line[i])
    requires (len > 0 ==> !IsSpace(line[len - 1])) && forall i :: len <= i < colon ==> IsSpace(line[i])
    ensures n == len
  {
    assert !(n < len) && !(len < n);
  }

  // ---------------------------------------------------------------- flags

  /** White space behind the value does not make a token. */
  lemma StartsPadded(rest: seq<Byte>, value: seq<Byte>, token: string)
    requires Plain(token) && |value| <= |rest| && rest[..|value|] == value
    requires forall i :: |value| <= i < |rest| ==> IsSpace(rest[i])
    ensures Starts(rest, token) <==> Starts(value, token)
  {
    forall i | 0 <= i < |value| ensures rest[i] == value[i] {
      assert rest[..|value|][i] == rest[i];
    }
    if |value| < |token| <= |rest| {
      assert IsSpace(rest[|value|]) && !Alike(rest[|value|], token[|value|]);
    }
  }

  /** The known names, each tried only when none before it matches. */
  datatype Known = ContentLength | TransferEncoding | Connection | Upgrade | Other

  function KnownBy(name: seq<Byte>): Known {
    if Abbreviates(name, "content-length") then ContentLength
    else if Abbreviates(name, "transfer-encoding") then TransferEncoding
    else if Abbreviates(name, "connection") then Connection
    else if Abbreviates(name, "upgrade") then Upgrade
    else Other
  }

  /** What a header with this name and value sets. */
  ghost predicate Sets(name: seq<Byte>, value: seq<Byte>, flag: Flag) {
    match flag
    case CntLen => KnownBy(name).ContentLength?
    case Chunked => KnownBy(name).TransferEncoding? && Starts(value, "chunked")
    case ConnClose => KnownBy(name).Connection? && Starts(value, "close")
    case ConnKeepAlive => KnownBy(name).Connection? && Starts(value, "keep-alive")
    case ConnUpgrade => KnownBy(name).Connection? && Starts(value, "upgrade")
    case WebSocket => KnownBy(name).Upgrade? && Starts(value, "websocket")
    case UpgradeH2c => KnownBy(name).Upgrade? && Starts(value, "h2c")
  }

  lemma LengthName(name: seq<Byte>)
    ensures Matches(name, "content-length", |name|) <==> Abbreviates(name, "content-length")
  {
    NameMatches(name, "content-length");
  }

  lemma CodingName(name: seq<Byte>)
    ensures Matches(name, "transfer-encoding", |name|) <==> Abbreviates(name, "transfer-encoding")
  {
    NameMatches(name, "transfer-encoding");
  }

  lemma ConnectionName(name: seq<Byte>)
    ensures Matches(name, "connection", |name|) <==> Abbreviates(name, "connection")
  {
    NameMatches(name, "connection");
  }

  lemma UpgradeName(name: seq<Byte>)
    ensures Matches(name, "upgrade", |name|) <==> Abbreviates(name, "upgrade")
  {
    NameMatches(name, "upgrade");
  }

  /** The parser tries the names in this order. */
  lemma ParsesByName(n: Span, v: Span, name: seq<Byte>, rest: seq<Byte>)
    ensures ParseField(n, v, name, rest) ==
      match KnownBy(name)
      case ContentLength => Field(n, v, {CntLen}, true)
      case TransferEncoding => Field(n, v, if HasToken(rest, "chunked") then {Chunked} else {}, false)
      case Connection => Field(n, v, ConnectionFlags(rest), false)
      case Upgrade => Field(n, v, UpgradeFlags(rest), false)
      case Other => Field(n, v, {}, false)
  {
    LengthName(name);
    CodingName(name);
    ConnectionName(name);
    UpgradeName(name);
  }

  lemma TokenOf(rest: seq<Byte>, value: seq<Byte>, token: string)
    requires Plain(token) && |value| <= |rest| && rest[..|value|] == value
    requires forall i :: |value| <= i < |rest| ==> IsSpace(rest[i])
    ensures HasToken(rest, token) <==> Starts(value, token)
  {
    TokenMatches(rest, token);
    StartsPadded(rest, value, token);
  }

  lemma CloseToken(rest: seq<Byte>, value: seq<Byte>)
    requires |value| <= |rest| && rest[..|value|] == value && forall i :: |value| <= i < |rest| ==> IsSpace(rest[i])
    ensures HasToken(rest, "close") <==> Starts(value, "close")
  {
    TokenOf(rest, value, "close");
  }

  lemma KeepAliveToken(rest: seq<Byte>, value: seq<Byte>)
    requires |value| <= |rest| && rest[..|value|] == value && forall i :: |value| <= i < |rest| ==> IsSpace(rest[i])
    ensures HasToken(rest, "keep-alive") <==> Starts(value, "keep-alive")
  {
    TokenOf(rest, value, "keep-alive");
  }

  lemma UpgradeToken(rest: seq<Byte>, value: seq<Byte>)
    requires |value| <= |rest| && rest[..|value|] == value && forall i :: |value| <= i < |rest| ==> IsSpace(rest[i])
    ensures HasToken(rest, "upgrade") <==> Starts(value, "upgrade")
  {
    TokenOf(rest, value, "upgrade");
  }

  lemma ChunkedToken(rest: seq<Byte>, value: seq<Byte>)
    requires |value| <= |rest| && rest[..|value|] == value && forall i :: |value| <= i < |rest| ==> IsSpace(rest[i])
    ensures HasToken(rest, "chunked") <==> Starts(value, "chunked")
  {
    TokenOf(rest, value, "chunked");
  }

  /** Different tokens of one header start differently. */
  lemma TokensDiffer(value: seq<Byte>)
    ensures !(Starts(value, "close") && Starts(value, "keep-alive")) && !(Starts(value, "close") && Starts(value, "upgrade"))
    ensures !(Starts(value, "keep-alive") && Starts(value, "upgrade")) && !(Starts(value, "websocket") && Starts(value, "h2c"))
  {
    if value != [] {
      var b := value[0];
      assert Starts(value, "close") ==> Alike(b, 'c');
      assert Starts(value, "keep-alive") ==> Alike(b, 'k');
      assert Starts(value, "upgrade") ==> Alike(b, 'u');
      assert Starts(value, "websocket") ==> Alike(b, 'w');
      assert Starts(value, "h2c") ==> Alike(b, 'h');
    }
  }

  lemma ConnectionSets(rest: seq<Byte>, value: seq<Byte>)
    requires |value| <= |rest| && rest[..|value|] == value && forall i :: |value| <= i < |rest| ==> IsSpace(rest[i])
    ensures var fl := ConnectionFlags(rest);
      && (ConnClose in fl <==> Starts(value, "close")) && (ConnKeepAlive in fl <==> Starts(value, "keep-alive"))
      && (ConnUpgrade in fl <==> Starts(value, "upgrade")) && fl <= {ConnClose, ConnKeepAlive, ConnUpgrade}
  {
    CloseToken(rest, value);
    KeepAliveToken(rest, value);
    UpgradeToken(rest, value);
    TokensDiffer(value);
  }

  lemma UpgradeSets(rest: seq<Byte>, value: seq<Byte>)
    requires |value| <= |rest| && rest[..|value|] == value && forall i :: |value| <= i < |rest| ==> IsSpace(rest[i])
    ensures var fl := UpgradeFlags(rest);
      (WebSocket in fl <==> Starts(value, "websocket")) && (UpgradeH2c in fl <==> Starts(value, "h2c")) && fl <= {WebSocket, UpgradeH2c}
  {
    TokenOf(rest, value, "websocket");
    TokenOf(rest, value, "h2c");
    TokensDiffer(value);
  }

  lemma ParseSets(n: Span, v: Span, name: seq<Byte>, value: seq<Byte>, rest: seq<Byte>, flag: Flag)
    requires |value| <= |rest| && rest[..|value|] == value && forall i :: |value| <= i < |rest| ==> IsSpace(rest[i])
    ensures var f := ParseField(n, v, name, rest);
      (flag in f.flags <==> Sets(name, value, flag)) && (f.length <==> KnownBy(name).ContentLength?)
  {
    ParsesByName(n, v, name, rest);
    match KnownBy(name)
    case TransferEncoding => ChunkedToken(rest, value);
    case Connection => ConnectionSets(rest, value);
    case Upgrade => UpgradeSets(rest, value);
    case _ =>
  }

  lemma RestOf(line: seq<Byte>, f: Field, name: seq<Byte>, value: seq<Byte>) returns (rest: seq<Byte>)
    requires Has(line, f, name, value)
    ensures rest == line[f.value.pos..] && |value| <= |rest| && rest[..|value|] == value
    ensures forall i :: |value| <= i < |rest| ==> IsSpace(rest[i])
  {
    rest := line[f.value.pos..];
    assert rest[..|value|] == line[f.value.pos..f.value.pos + |value|];
    forall i | |value| <= i < |rest| ensures IsSpace(rest[i]) {
      assert rest[i] == line[f.value.pos + i];
    }
  }

  lemma ReadsParts(line: seq<Byte>, colon: nat, f: Field)
    requires colon + 1 < |line| && f == ReadField(line, colon)
    ensures f == ParseField(f.name, f.value, line[..f.name.len], line[f.value.pos..])
  {
    var v := SkipSpace(line, colon + 1, |line| - 1);
    SpansAre(line, colon, Trimmed(line[..colon]), v, Cutoff(line, v));
  }

  /**
   A line sets a flag if and only if its name, letter case aside, is a prefix of the flag's header and
   of none tried before it, and its value starts with the flag's token; its value is the length of
   the body exactly when the name is a prefix of Content-Length.
   */
  lemma FlagsExactly(line: seq<Byte>, name: seq<Byte>, value: seq<Byte>, l: Layout, flag: Flag)
    requires Spells(line, name, value, l)
    ensures |line| > 0 && FieldOf(line).Some? && !Blank(line)
    ensures flag in FieldOf(line).value.flags <==> Sets(name, value, flag)
    ensures FieldOf(line).value.length <==> KnownBy(name).ContentLength?
  {
    var f := FieldSpelled(line, name, value, l, ColonAt(name, l));
    var rest := RestOf(line, f, name, value);
    ReadsParts(line, ColonAt(name, l), f);
    ParseSets(f.name, f.value, name, value, rest, flag);
  }

  // ---------------------------------------------------------------- header blocks

  /** The parts of a line around a colon, a value from `v` to `e` and a name of length `n`. */
  ghost predicate Parts(line: seq<Byte>, n: nat, colon: nat, v: nat, e: nat, name: seq<Byte>, value: seq<Byte>, l: Layout) {
    && n <= colon < v <= e < |line| && name == line[..n] && value == line[v..e]
    && l.before == line[n..colon] && l.between == line[colon + 1..v] && l.after == line[e..|line| - 1]
  }

  lemma Pieces(line: seq<Byte>, n: nat, colon: nat, v: nat, e: nat, name: seq<Byte>, value: seq<Byte>, l: Layout)
    requires Parts(line, n, colon, v, e, name, value, l) && line[colon] == 58 && line[|line| - 1] == 10
    ensures line == LineText(name, value, l)
  {
    assert name + l.before == line[..colon];
    assert l.after + [10] == line[e..];
    assert value + line[e..] == line[v..];
    assert l.between + line[v..] == line[colon + 1..];
    assert [58] + line[colon + 1..] == line[colon..];
    assert line[..colon] + line[colon..] == line;
  }

  lemma PiecesAreTight(line: seq<Byte>, colon: nat, f: Field, name: seq<Byte>, value: seq<Byte>, l: Layout)
    requires Trims(line, colon, f) && line[|line| - 1] == 10 && forall i :: 0 <= i < colon ==> line[i] != 58
    requires Parts(line, f.name.len, colon, f.value.pos, f.value.pos + f.value.len, name, value, l)
    ensures Padded(name, value, l)
  {
  }

  lemma PartsOf(line: seq<Byte>, colon: nat, f: Field) returns (name: seq<Byte>, value: seq<Byte>, l: Layout)
    requires Trims(line, colon, f)
    ensures Parts(line, f.name.len, colon, f.value.pos, f.value.pos + f.value.len, name, value, l)
  {
    var n, v, e := f.name.len, f.value.pos, f.value.pos + f.value.len;
    name, value, l := line[..n], line[v..e], Layout(line[n..colon], line[colon + 1..v], line[e..|line| - 1]);
  }

  lemma SomeTrims(line: seq<Byte>, colon: nat) returns (f: Field)
    requires colon + 1 < |line|
    ensures Trims(line, colon, f)
  {
    f := ReadField(line, colon);
    FieldTrims(line, colon, f);
  }

  /** Every line with a colon is spelled by some name and value. */
  lemma Spelling(line: seq<Byte>, colon: nat) returns (name: seq<Byte>, value: seq<Byte>, l: Layout)
    requires colon + 1 < |line| && line[colon] == 58 && line[|line| - 1] == 10
    requires forall i :: 0 <= i < colon ==> line[i] != 58
    ensures Spells(line, name, value, l)
  {
    var f := SomeTrims(line, colon);
    name, value, l := PartsOf(line, colon, f);
    Pieces(line, f.name.len, colon, f.value.pos, f.value.pos + f.value.len, name, value, l);
    PiecesAreTight(line, colon, f, name, value, l);
  }

  /** The line says so: it has a name and a value that set the flag. */
  ghost predicate Announces(line: seq<Byte>, flag: Flag) {
    exists name, value, l :: Spells(line, name, value, l) && Sets(name, value, flag)
  }

  lemma ColonIn(line: seq<Byte>) returns (colon: nat)
    requires |line| > 0 && FieldOf(line).Some?
    ensures colon + 1 < |line| && line[colon] == 58 && FieldOf(line) == Some(ReadField(line, colon))
    ensures forall i :: 0 <= i < colon ==> line[i] != 58
  {
    colon := Find(line[..|line| - 1], 0, 58);
    FindSkips(line[..|line| - 1], 0, 58);
    forall i | 0 <= i < colon ensures line[i] != 58 {
      assert line[..|line| - 1][i] == line[i];
    }
  }

  lemma {:induction false} FindSkips(buf: seq<Byte>, p: nat, c: int)
    requires p <= |buf|
    ensures forall i :: p <= i < Find(buf, p, c) ==> buf[i] != c
    decreases |buf| - p
  {
    if p < |buf| && buf[p] != c {
      FindSkips(buf, p + 1, c);
    }
  }

  /** A line sets a flag exactly when it says so. */
  lemma AnnouncesExactly(line: seq<Byte>, flag: Flag)
    requires |line| > 0 && line[|line| - 1] == 10
    ensures Announces(line, flag) <==> FieldOf(line).Some? && flag in FieldOf(line).value.flags
    ensures Announces(line, flag) ==> !Blank(line)
  {
    if Announces(line, flag) {
      var name, value, l :| Spells(line, name, value, l) && Sets(name, value, flag);
      FlagsExactly(line, name, value, l, flag);
    }
    if FieldOf(line).Some? && flag in FieldOf(line).value.flags {
      var colon := ColonIn(line);
      var name, value, l := Spelling(line, colon);
      FlagsExactly(line, name, value, l, flag);
    }
  }

  /** There is a complete line at `p`, with a colon. */
  ghost predicate HeaderAt(buf: seq<Byte>, p: nat) {
    p <= |buf| && Text(buf, p).Some? && !Blank(Text(buf, p).value) && FieldOf(Text(buf, p).value).Some?
  }

  function LineEnd(buf: seq<Byte>, p: nat): (e: nat)
    requires p <= |buf| && Text(buf, p).Some?
    ensures p < e <= |buf|
  {
    p + |Text(buf, p).value|
  }

  ghost predicate AnnouncedAt(buf: seq<Byte>, p: nat, flag: Flag) {
    p <= |buf| && Text(buf, p).Some? && Announces(Text(buf, p).value, flag)
  }

  /** `at` is where a line starts, and every line from `p` up to there is a header line. */
  ghost predicate LineStart(buf: seq<Byte>, p: nat, at: nat)
    requires p <= |buf|
    decreases |buf| - p
  {
    p == at || (HeaderAt(buf, p) && LineStart(buf, LineEnd(buf, p), at))
  }

  /** One of the header lines from `p` on says so. */
  ghost predicate AnnouncedIn(buf: seq<Byte>, p: nat, flag: Flag)
    requires p <= |buf|
  {
    exists at: nat :: LineStart(buf, p, at) && AnnouncedAt(buf, at, flag)
  }

  lemma HeaderRead(buf: seq<Byte>, p: nat)
    requires p <= |buf|
    ensures HeaderAt(buf, p) <==> ReadLine(buf, p).Headed?
    ensures HeaderAt(buf, p) ==> ReadLine(buf, p).end == LineEnd(buf, p) && ReadLine(buf, p).field == FieldOf(Text(buf, p).value).value
  {
  }

  lemma AnnouncedRead(buf: seq<Byte>, p: nat, flag: Flag)
    requires p <= |buf|
    ensures AnnouncedAt(buf, p, flag) <==> HeaderAt(buf, p) && flag in FieldOf(Text(buf, p).value).value.flags
  {
    if Text(buf, p).Some? {
      var line := Text(buf, p).value;
      assert line[|line| - 1] == 10;
      AnnouncesExactly(line, flag);
    }
  }

  /** One line at a time. */
  lemma SaysNext(buf: seq<Byte>, p: nat, flag: Flag)
    requires p <= |buf|
    ensures Says(buf, p, flag) <==> AnnouncedAt(buf, p, flag) || (HeaderAt(buf, p) && Says(buf, LineEnd(buf, p), flag))
  {
    HeaderRead(buf, p);
    AnnouncedRead(buf, p, flag);
  }

  lemma {:induction false} SaidThere(buf: seq<Byte>, p: nat, at: nat, flag: Flag)
    requires p <= |buf| && LineStart(buf, p, at) && AnnouncedAt(buf, at, flag)
    ensures Says(buf, p, flag)
    decreases |buf| - p
  {
    SaysNext(buf, p, flag);
    if p != at {
      SaidThere(buf, LineEnd(buf, p), at, flag);
    }
  }

  lemma {:induction false} WhereSaid(buf: seq<Byte>, p: nat, flag: Flag) returns (at: nat)
    requires p <= |buf| && Says(buf, p, flag)
    ensures LineStart(buf, p, at) && AnnouncedAt(buf, at, flag)
    decreases |buf| - p
  {
    SaysNext(buf, p, flag);
    if AnnouncedAt(buf, p, flag) {
      at := p;
    } else {
      at := WhereSaid(buf, LineEnd(buf, p), flag);
    }
  }

  /** The header lines set a flag exactly when one of them says so. */
  lemma SaysExactly(buf: seq<Byte>, p: nat, flag: Flag)
    requires p <= |buf|
    ensures Says(buf, p, flag) <==> AnnouncedIn(buf, p, flag)
  {
    if Says(buf, p, flag) {
      var at := WhereSaid(buf, p, flag);
    }
    if AnnouncedIn(buf, p, flag) {
      var at: nat :| LineStart(buf, p, at) && AnnouncedAt(buf, at, flag);
      SaidThere(buf, p, at, flag);
    }
  }

  /** `Transfer-Encoding`, in capitals and small letters. */
  const CODING: seq<Byte> := [84, 114, 97, 110, 115, 102, 101, 114, 45, 69, 110, 99, 111, 100, 105, 110, 103]

  /** `chunked`. */
  const CHUNKED: seq<Byte> := [99, 104, 117, 110, 107, 101, 100]

  lemma CodingIsKnown()
    ensures KnownBy(CODING).TransferEncoding?
  {
    assert !Alike(CODING[0], "content-length"[0]);
    assert AlikeUpTo(CODING, "transfer-encoding", 17);
  }

  lemma ChunkedStarts()
    ensures Starts(CHUNKED, "chunked")
  {
  }

  lemma CodingIsTight()
    ensures Tight(CODING, CHUNKED)
  {
  }

  /** The usual line says that the body is chunked. */
  lemma ChunkedAnnounced(line: seq<Byte>)
    requires line == LineText(CODING, CHUNKED, Layout([], [32], [13]))
    ensures Announces(line, Chunked)
  {
    CodingIsKnown();
    ChunkedStarts();
    CodingIsTight();
    assert Sets(CODING, CHUNKED, Chunked);
    assert Spells(line, CODING, CHUNKED, Layout([], [32], [13]));
  }
}
