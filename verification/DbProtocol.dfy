/**
 What src/database/db_protocol.c makes of a packet: the protocol, the kind of query and whether the
 client's session must stick to a backend. `kind` stands for the keyword classification of the SQL
 text, which no packet that passes the protocol detection reaches.
 */
module DbProtocol {
  import opened Common
  import opened DbPoolSpec
  import opened DbRouterSpec

  datatype Protocol = Undetected | PostgreSQL | MySQL | Redis

  const LF: Byte := 10
  const CR: Byte := 13

  function Detect(d: seq<Byte>): Protocol {
    if |d| < 4 then Undetected
    else if d[0] == 0 && d[1] == 0 && d[2] == 0 then PostgreSQL
    else if |d| >= 5 && d[0] < 0x20 && (d[4] == 0x0a || d[4] == 0x09) then MySQL
    else if d[0] == '*' as int || d[0] == '+' as int || d[0] == '-' as int || d[0] == ':' as int || d[0] == '$' as int then Redis
    else Undetected
  }

  predicate Sticks(kind: QueryType) {
    kind.Begin? || kind.SessionVar?
  }

  function Number(b3: int, b2: int, b1: int, b0: int): int {
    b3 * 0x100_0000 + b2 * 0x1_0000 + b1 * 0x100 + b0
  }

  function ParsePostgres(d: seq<Byte>, kind: QueryType): Info {
    if |d| >= 5 && d[0] == 'Q' as int && |d| >= U32(Number(d[1], d[2], d[3], d[4]) + 1)
    then Info(kind, Sticks(kind)) else Info(Unknown, false)
  }

  function ParseMysql(d: seq<Byte>, kind: QueryType): Info {
    if |d| >= 5 && d[4] == 0x03 && |d| >= Number(0, d[2], d[1], d[0]) + 4
    then Info(kind, Sticks(kind)) else Info(Unknown, false)
  }

  // ---------------------------------------------------------------- Redis

  /** The first position from `i` on that holds `b`, or the end. */
  function Seek(d: seq<Byte>, i: nat, b: Byte): (j: nat)
    requires i <= |d|
    ensures i <= j <= |d|
    decreases |d| - i
  {
    if i == |d| || d[i] == b then i else Seek(d, i + 1, b)
  }

  /** The text between the second line feed and the next carriage return. */
  function Command(d: seq<Byte>): seq<Byte> {
    var i := Seek(d, 0, LF);
    if i == |d| then []
    else
      var j := Seek(d, i + 1, LF);
      if j == |d| then [] else d[j + 1..Seek(d, j + 1, CR)]
  }

  predicate Letter(b: Byte, upper: char) {
    b == upper as int || b == upper as int + 32
  }

  function CommandKind(cmd: seq<Byte>): QueryType {
    if |cmd| < 3 then Read
    else if Letter(cmd[0], 'S') && Letter(cmd[1], 'E') && Letter(cmd[2], 'T') then Write
    else if Letter(cmd[0], 'G') && Letter(cmd[1], 'E') && Letter(cmd[2], 'T') then Read
    else if |cmd| >= 4 && Letter(cmd[0], 'M') && Letter(cmd[3], 'T') then Begin
    else if |cmd| >= 4 && Letter(cmd[0], 'E') && Letter(cmd[1], 'X') && Letter(cmd[2], 'E') && Letter(cmd[3], 'C') then End
    else Read
  }

  function RedisInfo(d: seq<Byte>): Info {
    if |d| < 3 then Info(Unknown, false)
    else
      var kind := if d[0] == '*' as int then CommandKind(Command(d)) else Read;
      Info(kind, kind.Begin?)
  }

  method SeekByte(d: seq<Byte>, i: nat, b: Byte) returns (j: nat)
    requires i <= |d|
    ensures j == Seek(d, i, b)
  {
    j := i;
    while j < |d| && d[j] != b
      invariant i <= j <= |d| && Seek(d, j, b) == Seek(d, i, b)
    {
      j := j + 1;
    }
  }

  method ParseRedis(d: seq<Byte>) returns (info: Info)
    ensures info == RedisInfo(d)
  {
    if |d| < 3 {
      return Info(Unknown, false);
    }
    var kind := Read;
    if d[0] == '*' as int {
      var i := SeekByte(d, 0, LF);
      if i < |d| {
        i := SeekByte(d, i + 1, LF);
        if i < |d| {
          var end := SeekByte(d, i + 1, CR);
          kind := CommandKind(d[i + 1..end]);
        }
      }
    }
    return Info(kind, kind.Begin?);
  }

  /** What the router acts on; packets of no known protocol are refused. */
  function Inspect(d: seq<Byte>, kind: QueryType): Option<Info> {
    match Detect(d)
    case Undetected => None
    case PostgreSQL => Some(ParsePostgres(d, kind))
    case MySQL => Some(ParseMysql(d, kind))
    case Redis => Some(RedisInfo(d))
  }

  // ---------------------------------------------------------------- properties

  /** Only Redis packets are ever classified: the detection of PostgreSQL and MySQL contradicts the
      message types their parsers look for. Stickiness is as the router's theorems assume. */
  lemma OnlyRedisIsClassified(d: seq<Byte>, kind: QueryType)
    requires Inspect(d, kind).Some?
    ensures FromParser(Inspect(d, kind).value)
    ensures !Detect(d).Redis? ==> Inspect(d, kind).value == Info(Unknown, false)
  {
    if Detect(d).Redis? {
      var info := RedisInfo(d);
      assert !info.q.SessionVar?;
    }
  }

  lemma {:induction false} SeekSkips(a: seq<Byte>, rest: seq<Byte>, i: nat, b: Byte)
    requires i <= |a| && forall k :: i <= k < |a| ==> a[k] != b
    requires rest != [] ==> rest[0] == b
    ensures Seek(a + rest, i, b) == |a|
    decreases |a| - i
  {
    if i < |a| {
      assert (a + rest)[i] == a[i];
      SeekSkips(a, rest, i + 1, b);
    } else if rest != [] {
      assert (a + rest)[i] == rest[0];
    }
  }

  /** A request in the array form: the count line, the length line, then the command. */
  function Request(counts: seq<Byte>, length: seq<Byte>, cmd: seq<Byte>, rest: seq<Byte>): seq<Byte> {
    counts + ([LF] + (length + ([LF] + (cmd + ([CR] + rest)))))
  }

  lemma SeekAfter(a: seq<Byte>, m: seq<Byte>, rest: seq<Byte>, b: Byte)
    requires b !in m && (rest != [] ==> rest[0] == b)
    ensures Seek(a + (m + rest), |a|, b) == |a| + |m|
  {
    var l := a + m;
    assert a + (m + rest) == l + rest;
    forall k | |a| <= k < |l| ensures l[k] != b { assert l[k] == m[k - |a|]; }
    SeekSkips(l, rest, |a|, b);
  }

  lemma CommandAt(d: seq<Byte>, i: nat, j: nat, k: nat)
    requires i < j < |d| && Seek(d, 0, LF) == i && Seek(d, i + 1, LF) == j && Seek(d, j + 1, CR) == k
    ensures Command(d) == d[j + 1..k]
  {
  }

  /** The command comes back out of every request, whatever its arguments. */
  lemma CommandRoundTrip(counts: seq<Byte>, length: seq<Byte>, cmd: seq<Byte>, rest: seq<Byte>)
    requires LF !in counts && LF !in length && CR !in cmd
    ensures Command(Request(counts, length, cmd, rest)) == cmd
  {
    var d := Request(counts, length, cmd, rest);
    var one, two := counts + [LF], counts + [LF] + length + [LF];
    assert Seek(d, 0, LF) == |counts| by {
      assert [] + d == d;
      SeekAfter([], counts, [LF] + (length + ([LF] + (cmd + ([CR] + rest)))), LF);
    }
    assert Seek(d, |one|, LF) == |one| + |length| by {
      assert d == one + (length + ([LF] + (cmd + ([CR] + rest))));
      SeekAfter(one, length, [LF] + (cmd + ([CR] + rest)), LF);
    }
    assert d == two + (cmd + ([CR] + rest));
    assert Seek(d, |two|, CR) == |two| + |cmd| by {
      SeekAfter(two, cmd, [CR] + rest, CR);
    }
    CommandAt(d, |counts|, |one| + |length|, |two| + |cmd|);
    assert d[|two|..|two| + |cmd|] == cmd;
  }

  lemma RequestKind(counts: seq<Byte>, length: seq<Byte>, cmd: seq<Byte>, rest: seq<Byte>)
    requires counts != [] && counts[0] == '*' as int && LF !in counts && LF !in length && CR !in cmd
    ensures RedisInfo(Request(counts, length, cmd, rest)) == Info(CommandKind(cmd), CommandKind(cmd).Begin?)
  {
    CommandRoundTrip(counts, length, cmd, rest);
  }

  const MULTI: seq<Byte> := [77, 85, 76, 84, 73]
  const EXEC: seq<Byte> := [69, 88, 69, 67]
  const MGET: seq<Byte> := [77, 71, 69, 84]
  const DISCARD: seq<Byte> := [68, 73, 83, 67, 65, 82, 68]

  lemma CommandKinds()
    ensures CommandKind(MULTI) == Begin && CommandKind(EXEC) == End
    ensures CommandKind(MGET) == Begin && CommandKind(DISCARD) == Read
    ensures CR !in MULTI && CR !in EXEC && CR !in MGET && CR !in DISCARD
  {
  }

  /** MULTI and EXEC delimit a transaction, but MGET opens one as well, and DISCARD ends none. */
  lemma RedisTransactions(counts: seq<Byte>, length: seq<Byte>, rest: seq<Byte>)
    requires counts != [] && counts[0] == '*' as int && LF !in counts && LF !in length
    ensures RedisInfo(Request(counts, length, MULTI, rest)) == Info(Begin, true)
    ensures RedisInfo(Request(counts, length, EXEC, rest)) == Info(End, false)
    ensures RedisInfo(Request(counts, length, MGET, rest)) == Info(Begin, true)
    ensures RedisInfo(Request(counts, length, DISCARD, rest)) == Info(Read, false)
  {
    CommandKinds();
    RequestKind(counts, length, MULTI, rest);
    RequestKind(counts, length, EXEC, rest);
    RequestKind(counts, length, MGET, rest);
    RequestKind(counts, length, DISCARD, rest);
  }

  /** The command starts with these letters, of either case. */
  predicate Begins(cmd: seq<Byte>, word: string) {
    |cmd| >= |word| && forall i :: 0 <= i < |word| ==> cmd[i] == word[i] as int || cmd[i] == word[i] as int + 32
  }

  /** The kind of every command: SET and what starts with it writes, GET and what starts with it reads,
      otherwise M with T as its fourth letter opens a transaction and EXEC closes one. All else reads. */
  lemma KindExactly(cmd: seq<Byte>)
    ensures CommandKind(cmd).Write? <==> Begins(cmd, "SET")
    ensures CommandKind(cmd).Begin? <==> |cmd| >= 4 && Begins(cmd, "M") && Begins(cmd[3..], "T")
    ensures CommandKind(cmd).End? <==> Begins(cmd, "EXEC")
    ensures Begins(cmd, "GET") ==> CommandKind(cmd).Read?
    ensures CommandKind(cmd) in {Read, Write, Begin, End}
  {
  }

  /** So the router is told to write for every request that starts with SET and to read for every one
      that starts with GET. */
  lemma RedisRequests(counts: seq<Byte>, length: seq<Byte>, cmd: seq<Byte>, rest: seq<Byte>, kind: QueryType)
    requires counts != [] && counts[0] == '*' as int && LF !in counts && LF !in length && CR !in cmd
    ensures Begins(cmd, "SET") ==> Inspect(Request(counts, length, cmd, rest), kind) == Some(Info(Write, false))
    ensures Begins(cmd, "GET") ==> Inspect(Request(counts, length, cmd, rest), kind) == Some(Info(Read, false))
  {
    var d := Request(counts, length, cmd, rest);
    assert d[0] == counts[0] && |d| >= |cmd| + 4;
    RequestKind(counts, length, cmd, rest);
    KindExactly(cmd);
  }

  /** Packets of four bytes and more are told apart by their first bytes: three zeros, a small number
      and the type of a command, or one of the five Redis marks. */
  lemma DetectExactly(d: seq<Byte>)
    ensures Detect(d).PostgreSQL? <==> |d| >= 4 && d[..3] == [0, 0, 0]
    ensures Detect(d).MySQL? <==> |d| >= 5 && d[..3] != [0, 0, 0] && d[0] < 32 && (d[4] == 9 || d[4] == 10)
    ensures Detect(d).Redis? <==> |d| >= 4 && d[0] in {36, 42, 43, 45, 58}
  {
  }
}
