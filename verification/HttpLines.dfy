/**
 The lines of an HTTP/1 message as src/http/http_parser.c reads them: header fields, the flags
 they set, decimal lengths and hexadecimal chunk sizes. Positions are offsets into the buffer.
 */
module HttpLines {
  import opened Common

  const LF: int := 10
  const CR: int := 13

  /** `memchr`: the first position at or after `p` holding `c`, or the end of the buffer. */
  function Find(buf: seq<Byte>, p: nat, c: int): (q: nat)
    requires p <= |buf|
    ensures p <= q <= |buf|
    ensures q < |buf| ==> buf[q] == c
    decreases |buf| - p
  {
    if p == |buf| || buf[p] == c then p else Find(buf, p + 1, c)
  }

  /** A position with these properties is the one `memchr` finds. */
  lemma {:induction false} FindIs(buf: seq<Byte>, p: nat, c: int, q: nat)
    requires p <= q <= |buf| && (q < |buf| ==> buf[q] == c)
    requires forall i :: p <= i < q ==> buf[i] != c
    ensures Find(buf, p, c) == q
    decreases q - p
  {
    if p < q {
      FindIs(buf, p + 1, c, q);
    }
  }

  predicate IsSpace(b: int) {
    b == 32 || 9 <= b <= 13
  }

  function Lower(b: int): int {
    if 65 <= b <= 90 then b + 32 else b
  }

  /** `strncasecmp(s, literal, n) == 0`, with a NUL after each string's end. */
  predicate Matches(s: seq<Byte>, literal: string, n: nat)
    decreases n
  {
    n == 0 ||
    var c := if s == [] then 0 else Lower(s[0]);
    var l := if literal == "" then 0 else literal[0] as int;
    c == l && (l == 0 || s == [] || literal == "" || Matches(s[1..], literal[1..], n - 1))
  }

  /** Where the name ends for a comparison: at its first NUL byte, if it has one. */
  function Nul(name: seq<Byte>): (z: nat)
    ensures z <= |name| && (z < |name| ==> name[z] == 0)
    ensures forall i :: 0 <= i < z ==> name[i] != 0
  {
    if name == [] || name[0] == 0 then 0
    else
      var z := Nul(name[1..]);
      assert forall i :: 0 < i < |name| ==> name[i] == name[1..][i - 1];
      z + 1
  }

  /** A name is compared over its own length only, so every prefix of the literal matches; behind a
      NUL byte, which ends it as it ends the literal, only the whole literal does. */
  lemma {:induction false} MatchesPrefix(name: seq<Byte>, literal: string)
    requires forall i :: 0 <= i < |literal| ==> literal[i] as int != 0
    ensures var z := Nul(name);
      Matches(name, literal, |name|) <==>
        && (if z == |name| then z <= |literal| else z == |literal|)
        && forall i :: 0 <= i < z ==> Lower(name[i]) == literal[i] as int
    decreases |name|
  {
    if name != [] && literal != "" && name[0] != 0 {
      MatchesPrefix(name[1..], literal[1..]);
      assert forall i :: 0 < i < |name| ==> name[i] == name[1..][i - 1];
      assert forall i :: 0 < i < |literal| ==> literal[i] == literal[1..][i - 1];
      assert forall i :: 0 <= i < |name| - 1 ==> name[1..][i] == name[i + 1];
      assert forall i :: 0 <= i < |literal| - 1 ==> literal[1..][i] == literal[i + 1];
    }
  }

  // ---------------------------------------------------------------- header fields

  datatype Flag = CntLen | Chunked | ConnClose | ConnKeepAlive | ConnUpgrade | WebSocket | UpgradeH2c

  datatype Span = Span(pos: nat, len: nat)

  datatype Header = Header(name: Span, value: Span)

  /** What one header line says: where its name and value are, relative to the line's start, the
      flags it sets, and whether its value is taken for the body length. */
  datatype Field = Field(name: Span, value: Span, flags: set<Flag>, length: bool)

  /** The length left of `s` once trailing white space is dropped. */
  function Trimmed(s: seq<Byte>): (n: nat)
    ensures n <= |s|
  {
    if s == [] || !IsSpace(s[|s| - 1]) then |s| else Trimmed(s[..|s| - 1])
  }

  /** The first position in `p..eol` that is not white space, or `eol`. */
  function SkipSpace(s: seq<Byte>, p: nat, eol: nat): (q: nat)
    requires p <= eol <= |s|
    ensures p <= q <= eol
    ensures q < eol ==> !IsSpace(s[q])
    decreases eol - p
  {
    if p == eol || !IsSpace(s[p]) then p else SkipSpace(s, p + 1, eol)
  }

  /** `strncasecmp` over the length of the token. */
  predicate HasToken(s: seq<Byte>, token: string) {
    Matches(s, token, |token|)
  }

  function ConnectionFlags(value: seq<Byte>): set<Flag> {
    if HasToken(value, "close") then {ConnClose}
    else if HasToken(value, "keep-alive") then {ConnKeepAlive}
    else if HasToken(value, "upgrade") then {ConnUpgrade}
    else {}
  }

  function UpgradeFlags(value: seq<Byte>): set<Flag> {
    if HasToken(value, "websocket") then {WebSocket}
    else if HasToken(value, "h2c") then {UpgradeH2c}
    else {}
  }

  function ParseField(name: Span, value: Span, text: seq<Byte>, rest: seq<Byte>): Field {
    if Matches(text, "content-length", |text|) then Field(name, value, {CntLen}, true)
    else if Matches(text, "transfer-encoding", |text|) then
      Field(name, value, if HasToken(rest, "chunked") then {Chunked} else {}, false)
    else if Matches(text, "connection", |text|) then Field(name, value, ConnectionFlags(rest), false)
    else if Matches(text, "upgrade", |text|) then Field(name, value, UpgradeFlags(rest), false)
    else Field(name, value, {}, false)
  }

  /** Where a value that starts at `v` may end: before the newline and a carriage return. */
  function Cutoff(line: seq<Byte>, v: nat): nat
    requires 0 < |line| && v < |line|
  {
    if v < |line| - 1 && line[|line| - 2] == CR then |line| - 2 else |line| - 1
  }

  /** `line` runs up to and with its newline and has a colon before it. */
  function ReadField(line: seq<Byte>, colon: nat): (f: Field)
    requires colon + 1 < |line|
    ensures f.name.len <= colon && f.name.pos == 0
    ensures colon < f.value.pos && f.value.pos + f.value.len < |line|
  {
    var eol := |line| - 1;
    var n := Trimmed(line[..colon]);
    var v := SkipSpace(line, colon + 1, eol);
    var cut := Cutoff(line, v);
    ParseField(Span(0, n), Span(v, Trimmed(line[v..cut])), line[..n], line[v..])
  }

  lemma {:induction false} TrimmedIs(s: seq<Byte>)
    ensures Trimmed(s) > 0 ==> !IsSpace(s[Trimmed(s) - 1])
    ensures forall i :: Trimmed(s) <= i < |s| ==> IsSpace(s[i])
    decreases |s|
  {
    if s != [] && IsSpace(s[|s| - 1]) {
      TrimmedIs(s[..|s| - 1]);
    }
  }

  lemma {:induction false} SkipSpaceIs(s: seq<Byte>, p: nat, eol: nat)
    requires p <= eol <= |s|
    ensures forall i :: p <= i < SkipSpace(s, p, eol) ==> IsSpace(s[i])
    decreases eol - p
  {
    if p < eol && IsSpace(s[p]) {
      SkipSpaceIs(s, p + 1, eol);
    }
  }

  /** The value of a header line, trimmed from `v` to `cut`. */
  lemma ValueTrims(line: seq<Byte>, v: nat, cut: nat, len: nat)
    requires v <= cut <= |line| && len == Trimmed(line[v..cut])
    ensures len > 0 ==> !IsSpace(line[v + len - 1])
    ensures forall i :: v + len <= i < cut ==> IsSpace(line[i])
  {
    TrimmedIs(line[v..cut]);
    forall i | v + len <= i < cut ensures IsSpace(line[i]) {
      assert line[v..cut][i - v] == line[i];
    }
  }

  lemma SpansAre(line: seq<Byte>, colon: nat, n: nat, v: nat, cut: nat)
    requires colon + 1 < |line| && n == Trimmed(line[..colon])
    requires v == SkipSpace(line, colon + 1, |line| - 1) && cut == Cutoff(line, v)
    ensures v <= cut && ReadField(line, colon).name == Span(0, n)
    ensures ReadField(line, colon).value == Span(v, Trimmed(line[v..cut]))
  {
  }

  lemma ValueSpan(line: seq<Byte>, v: nat, cut: nat, len: nat)
    requires v < |line| && cut == Cutoff(line, v) && v <= cut && len == Trimmed(line[v..cut])
    requires v < |line| - 1 ==> !IsSpace(line[v])
    ensures len > 0 ==> !IsSpace(line[v]) && !IsSpace(line[v + len - 1])
    ensures forall i :: v + len <= i < |line| - 1 ==> IsSpace(line[i])
  {
    ValueTrims(line, v, cut, len);
  }

  lemma NameTrims(line: seq<Byte>, colon: nat, n: nat)
    requires colon <= |line| && n == Trimmed(line[..colon])
    ensures n > 0 ==> !IsSpace(line[n - 1])
    ensures forall i :: n <= i < colon ==> IsSpace(line[i])
  {
    TrimmedIs(line[..colon]);
    forall i | n <= i < colon ensures IsSpace(line[i]) {
      assert line[..colon][i] == line[i];
    }
  }

  /** Name and value are the text before and after the colon without the white space around it. */
  lemma FieldIsTrimmed(line: seq<Byte>, colon: nat)
    requires colon + 1 < |line|
    ensures var f := ReadField(line, colon);
      && f.name.pos == 0 && f.name.len <= colon < f.value.pos <= f.value.pos + f.value.len < |line|
      && (f.name.len > 0 ==> !IsSpace(line[f.name.len - 1]))
      && (forall i :: f.name.len <= i < colon ==> IsSpace(line[i]))
      && (forall i :: colon < i < f.value.pos ==> IsSpace(line[i]))
      && (f.value.len > 0 ==> !IsSpace(line[f.value.pos]) && !IsSpace(line[f.value.pos + f.value.len - 1]))
      && (forall i :: f.value.pos + f.value.len <= i < |line| - 1 ==> IsSpace(line[i]))
  {
    var n, v := Trimmed(line[..colon]), SkipSpace(line, colon + 1, |line| - 1);
    var cut := Cutoff(line, v);
    SpansAre(line, colon, n, v, cut);
    NameTrims(line, colon, n);
    SkipSpaceIs(line, colon + 1, |line| - 1);
    ValueSpan(line, v, cut, Trimmed(line[v..cut]));
  }

  // ---------------------------------------------------------------- decimal lengths

  predicate IsDigit(b: int) {
    48 <= b <= 57
  }

  /** The value of the decimal digits from `p` on, after `acc`. */
  function Decimal(buf: seq<Byte>, p: nat, acc: nat): nat
    requires p <= |buf|
    decreases |buf| - p
  {
    if p == |buf| || !IsDigit(buf[p]) then acc else Decimal(buf, p + 1, acc * 10 + (buf[p] - 48))
  }

  /** `strtoll` in base 10, saturating, stored in an unsigned 64-bit word. The end of the data
      stands for the terminator. */
  function Length(buf: seq<Byte>, p: nat): nat
    requires p <= |buf|
  {
    var q := SkipSpace(buf, p, |buf|);
    var signed := q < |buf| && (buf[q] == '+' as int || buf[q] == '-' as int);
    var v := Decimal(buf, if signed then q + 1 else q, 0);
    if signed && buf[q] == '-' as int
    then U64(0 - Min(v, 0x8000_0000_0000_0000)) else Min(v, 0x7FFF_FFFF_FFFF_FFFF)
  }

  // ---------------------------------------------------------------- chunk sizes

  predicate IsHex(b: int) {
    48 <= b <= 57 || 65 <= b <= 70 || 97 <= b <= 102
  }

  function HexDigit(b: int): (d: nat)
    requires IsHex(b)
    ensures d < 16
  {
    if b <= 57 then b - 48 else if b <= 70 then b - 65 + 10 else b - 97 + 10
  }

  /** The 64-bit value of the hexadecimal digits from `p` on, after `acc`, and where they end. */
  function Hex(buf: seq<Byte>, p: nat, acc: nat): (r: (nat, nat))
    requires p <= |buf|
    ensures p <= r.1 <= |buf|
    decreases |buf| - p
  {
    if p == |buf| || !IsHex(buf[p]) then (acc, p)
    else Hex(buf, p + 1, U64(acc * 16 + HexDigit(buf[p])))
  }

  /** A chunk-size line: the size and the offset past its newline, once the newline is there. */
  function ChunkLine(buf: seq<Byte>, p: nat): (r: Option<(nat, nat)>)
    requires p <= |buf|
    ensures r.Some? ==> p < r.value.1 <= |buf|
  {
    var (size, q) := Hex(buf, p, 0);
    var eol := Find(buf, q, LF);
    if eol == |buf| then None else Some((size, eol + 1))
  }
}
