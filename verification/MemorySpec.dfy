/**
 The allocator of src/utils/memory.c: a first-fit free list, threaded through the freed blocks
 themselves, over a bump pointer. Addresses are byte offsets from the base, which is 8-aligned;
 memory is a sequence of 8-byte words, and a free chunk keeps its size in its first word and the
 offset of the next chunk (-1 for none) in its second.
 */
module MemorySpec {
  import opened Common

  /** `ALIGN_SIZE` on a 64-bit `size_t`. */
  function Align(size: nat): (s: nat)
    ensures s % 8 == 0
  {
    U64(size + 7) - U64(size + 7) % 8
  }

  /** A size is rounded up to the next multiple of 8 if and only if adding 7 does not wrap; if it
      does, to zero. */
  lemma AlignRoundsUp(size: nat)
    requires size < TWO64
    ensures size + 7 < TWO64 <==> size <= Align(size)
    ensures if size + 7 < TWO64 then Align(size) < size + 8 else Align(size) == 0
  {
  }

  datatype Chunk = Chunk(addr: nat, size: nat)

  /** `live` maps each block handed out and not yet freed to its aligned size; a request for
      zero bytes hands out an address but no block. */
  datatype Arena = Arena(size: nat, used: nat, free: seq<Chunk>, live: map<nat, nat>)

  function FirstFit(free: seq<Chunk>, s: nat): (r: Option<nat>)
    ensures r.Some? ==> r.value < |free| && free[r.value].size >= s
    ensures r.Some? ==> forall i :: 0 <= i < r.value ==> free[i].size < s
    ensures r.None? ==> forall i :: 0 <= i < |free| ==> free[i].size < s
  {
    if free == [] then None
    else if free[0].size >= s then Some(0)
    else
      var r := FirstFit(free[1..], s);
      assert forall i :: 0 < i < |free| ==> free[i] == free[1..][i - 1];
      if r.None? then None else Some(r.value + 1)
  }

  function Hold(live: map<nat, nat>, addr: nat, s: nat): map<nat, nat> {
    if s == 0 then live else live[addr := s]
  }

  function Alloc(a: Arena, request: nat): (Arena, Option<nat>) {
    var s := Align(request);
    var k := FirstFit(a.free, s);
    if k.Some? then
      var addr := a.free[k.value].addr;
      (a.(free := a.free[..k.value] + a.free[k.value + 1..], live := Hold(a.live, addr, s)), Some(addr))
    else if U64(a.used + s) > a.size then (a, None)
    else (a.(used := U64(a.used + s), live := Hold(a.live, a.used, s)), Some(a.used))
  }

  function Free(a: Arena, addr: nat, request: nat): Arena {
    a.(free := [Chunk(addr, Align(request))] + a.free, live := a.live - {addr})
  }

  // ---------------------------------------------------------------- safety

  /** The header of a freed block takes 16 bytes. */
  const HEADER: nat := 16

  predicate Apart(a: nat, s: nat, b: nat, t: nat) {
    a + s <= b || b + t <= a
  }

  predicate Fits(a: Arena, addr: nat, s: nat) {
    addr % 8 == 0 && s % 8 == 0 && s > 0 && addr + s <= a.used
  }

  ghost predicate Inside(a: Arena) {
    && a.used <= a.size < TWO64 && a.used % 8 == 0
    && (forall i :: 0 <= i < |a.free| ==> Fits(a, a.free[i].addr, a.free[i].size) && a.free[i].size >= HEADER)
    && (forall x :: x in a.live ==> Fits(a, x, a.live[x]))
  }

  ghost predicate Disjoint(a: Arena) {
    && (forall i, j :: 0 <= i < j < |a.free| ==> Apart(a.free[i].addr, a.free[i].size, a.free[j].addr, a.free[j].size))
    && (forall i, x :: 0 <= i < |a.free| && x in a.live ==> Apart(a.free[i].addr, a.free[i].size, x, a.live[x]))
    && (forall x, y :: x in a.live && y in a.live && x != y ==> Apart(x, a.live[x], y, a.live[y]))
  }

  /** All blocks, live and free, are aligned, disjoint ranges below the bump pointer. */
  ghost predicate Safe(a: Arena) {
    Inside(a) && Disjoint(a)
  }

  /** Neither the rounding of the request wraps around nor, when no free chunk fits, the sum that
      the allocator compares with the pool's size. */
  predicate Servable(a: Arena, request: nat) {
    request + 7 < TWO64 && (FirstFit(a.free, Align(request)).Some? || a.used + Align(request) < TWO64)
  }

  /** The address belongs to a live block that has all the bytes requested. */
  ghost predicate Covers(a: Arena, addr: nat, request: nat) {
    request > 0 ==> addr in a.live && request <= a.live[addr]
  }

  lemma ReuseKeeps(a: Arena, k: nat, s: nat)
    requires Safe(a) && k < |a.free| && s <= a.free[k].size && s % 8 == 0
    ensures Safe(a.(free := a.free[..k] + a.free[k + 1..], live := Hold(a.live, a.free[k].addr, s)))
  {
    var rest := a.free[..k] + a.free[k + 1..];
    assert forall i :: 0 <= i < |rest| ==> rest[i] == a.free[if i < k then i else i + 1];
  }

  lemma BumpKeeps(a: Arena, s: nat)
    requires Safe(a) && s % 8 == 0 && a.used + s <= a.size
    ensures Safe(a.(used := a.used + s, live := Hold(a.live, a.used, s)))
  {
  }

  lemma AllocSafe(a: Arena, request: nat)
    requires Safe(a) && Servable(a, request)
    ensures Safe(Alloc(a, request).0)
  {
    var s := Align(request);
    var k := FirstFit(a.free, s);
    if k.Some? {
      ReuseKeeps(a, k.value, s);
    } else if a.used + s <= a.size {
      BumpKeeps(a, s);
    }
  }

  /** Neither a free chunk nor the bump pointer is the address of a live block. */
  lemma AddressIsNew(a: Arena, request: nat)
    requires Safe(a) && Alloc(a, request).1.Some?
    ensures Alloc(a, request).1.value !in a.live
  {
    var k := FirstFit(a.free, Align(request));
    if k.Some? {
      assert Fits(a, a.free[k.value].addr, a.free[k.value].size);
    }
  }

  /** The first free chunk of at least `s` bytes. */
  ghost predicate FirstOf(free: seq<Chunk>, s: nat, k: nat) {
    k < |free| && free[k].size >= s && forall i :: 0 <= i < k ==> free[i].size < s
  }

  /**
   A request that does not wrap is granted if and only if some free chunk is large enough or the
   rounded size still fits behind the bump pointer. The first such chunk goes out and the others stay
   in order; without one the bump pointer moves; refused, nothing changes.
   */
  lemma GrantedExactly(a: Arena, request: nat, s: nat)
    requires Servable(a, request) && s % 8 == 0 && request <= s < request + 8
    ensures var (b, p) := Alloc(a, request);
      && (p.Some? <==> (exists i :: 0 <= i < |a.free| && a.free[i].size >= s) || a.used + s <= a.size)
      && (forall k: nat :: FirstOf(a.free, s, k) ==>
            p == Some(a.free[k].addr) && b.used == a.used && b.free == a.free[..k] + a.free[k + 1..])
      && ((forall i :: 0 <= i < |a.free| ==> a.free[i].size < s) ==>
            && (a.used + s <= a.size ==> p == Some(a.used) && b.used == a.used + s && b.free == a.free)
            && (a.used + s > a.size ==> p == None && b == a))
  {
    AlignRoundsUp(request);
    Rounded(request, s);
    var f := FirstFit(a.free, s);
    forall k: nat | FirstOf(a.free, s, k) ensures f == Some(k) {
      assert f.Some?;
      assert !(f.value < k) && !(k < f.value);
    }
  }

  /** What was freed last is handed out first: a request that fits it gets the same address. */
  lemma FreeThenAlloc(a: Arena, addr: nat, request: nat, next: nat)
    requires Align(next) <= Align(request)
    ensures var (b, p) := Alloc(Free(a, addr, request), next);
      p == Some(addr) && b.free == a.free && b.used == a.used
  {
    var f := Free(a, addr, request).free;
    assert f[0] == Chunk(addr, Align(request)) && f[..0] + f[1..] == a.free;
  }

  lemma Rounded(request: nat, s: nat)
    requires request + 7 < TWO64 && s % 8 == 0 && request <= s < request + 8
    ensures Align(request) == s
  {
    AlignRoundsUp(request);
  }

  /** Every allocation that does not wrap keeps the arena safe, and its block, when it gets one,
      is a new live block of the aligned size, which covers the request. */
  lemma AllocKeeps(a: Arena, request: nat)
    requires Safe(a) && Servable(a, request)
    ensures Safe(Alloc(a, request).0)
    ensures var (b, p) := Alloc(a, request);
      p.Some? && request > 0 ==>
        p.value !in a.live && b.live == a.live[p.value := Align(request)] && Covers(b, p.value, request)
  {
    AllocSafe(a, request);
    AlignRoundsUp(request);
    if Alloc(a, request).1.Some? {
      AddressIsNew(a, request);
    }
  }

  lemma TooSmall(a: Arena, addr: nat, request: nat)
    requires Align(request) < HEADER
    ensures !Safe(Free(a, addr, request))
  {
    assert Free(a, addr, request).free[0] == Chunk(addr, Align(request));
  }

  /** Freeing what an allocation returned, a live block or the address of an empty one, keeps the
      arena safe exactly when the block has room for a header. */
  lemma FreeKeepsExactly(a: Arena, addr: nat, request: nat)
    requires Safe(a) && (Align(request) == 0 || (addr in a.live && a.live[addr] == Align(request)))
    ensures Safe(Free(a, addr, request)) <==> HEADER <= Align(request)
  {
    if Align(request) < HEADER {
      TooSmall(a, addr, request);
    }
  }

  /** The bump pointer moves only when no free chunk fits, and only up. */
  lemma BumpOnlyWhenNeeded(a: Arena, request: nat)
    requires Servable(a, request)
    ensures var b := Alloc(a, request).0;
      b.used >= a.used && (b.used != a.used ==> forall i :: 0 <= i < |a.free| ==> a.free[i].size < Align(request))
  {
  }

  /** A rounding that wraps hands out an address without a block. */
  lemma WrappedRounding(a: Arena, request: nat)
    requires Safe(a) && request + 7 >= TWO64 > request && Alloc(a, request).1.Some?
    ensures !Covers(Alloc(a, request).0, Alloc(a, request).1.value, request)
  {
    AlignRoundsUp(request);
    AddressIsNew(a, request);
  }

  /** A sum that wraps hands out a block that is not inside the pool. */
  lemma WrappedSum(a: Arena, request: nat)
    requires Safe(a) && Alloc(a, request).1.Some?
    requires FirstFit(a.free, Align(request)).None? && a.used + Align(request) >= TWO64
    ensures !Safe(Alloc(a, request).0)
  {
    var s := Align(request);
    var b := Alloc(a, request).0;
    assert a.used in b.live && b.live[a.used] == s && b.used < s + a.used;
    assert !Fits(b, a.used, s);
  }

  /** A granted request leaves the arena safe and has a block that covers it if and only if nothing
      wraps around. */
  lemma AllocKeepsExactly(a: Arena, request: nat)
    requires Safe(a) && request < TWO64 && Alloc(a, request).1.Some?
    ensures var (b, p) := Alloc(a, request);
      Safe(b) && Covers(b, p.value, request) <==> Servable(a, request)
  {
    if Servable(a, request) {
      AllocKeeps(a, request);
    } else if request + 7 >= TWO64 {
      WrappedRounding(a, request);
    } else {
      WrappedSum(a, request);
    }
  }

  /** A pool of 64 bytes from which 32 have been taken. */
  function Half(): Arena {
    Alloc(Arena(64, 0, [], map[]), 32).0
  }

  lemma HalfIs()
    ensures Half() == Arena(64, 32, [], map[0 := 32])
  {
    assert Align(32) == 32;
  }

  /** Both happen there: the largest aligned request is granted and moves the bump pointer back, and
      a larger one is granted without a block. */
  lemma HugeRequestIsGranted()
    ensures Alloc(Half(), TWO64 - 8).1 == Some(32) && Alloc(Half(), TWO64 - 8).0.used == 24
    ensures Alloc(Half(), TWO64 - 1) == (Half(), Some(32))
  {
    HalfIs();
    assert Align(TWO64 - 8) == TWO64 - 8 && Align(TWO64 - 1) == 0;
  }

  /** The same pool once a request for 8 bytes, or for none, is granted. */
  lemma SmallIs()
    ensures Alloc(Half(), 8) == (Arena(64, 40, [], map[0 := 32, 32 := 8]), Some(32))
    ensures Alloc(Half(), 0) == (Arena(64, 32, [], map[0 := 32]), Some(32))
  {
    HalfIs();
    assert Align(8) == 8 && Align(0) == 0;
  }

  lemma SmallIsSafe(a: Arena)
    requires a == Arena(64, 40, [], map[0 := 32, 32 := 8]) || a == Arena(64, 32, [], map[0 := 32])
    ensures Safe(a)
  {
  }

  /** To free what was granted there leaves the arena unsafe. */
  lemma SmallFreeHappens(request: nat) returns (a: Arena)
    requires request == 8 || request == 0
    ensures Alloc(Half(), request) == (a, Some(32)) && Safe(a) && !Safe(Free(a, 32, request))
  {
    SmallIs();
    a := if request == 8 then Arena(64, 40, [], map[0 := 32, 32 := 8]) else Arena(64, 32, [], map[0 := 32]);
    SmallIsSafe(a);
    AlignRoundsUp(request);
    TooSmall(a, 32, request);
  }

  // ---------------------------------------------------------------- runs

  datatype Op = Take(request: nat) | Give(addr: nat, request: nat)

  /** Each block is freed once, with the size it was requested with, and has room for a header. */
  ghost predicate Proper(a: Arena, op: Op) {
    match op
    case Take(request) => Servable(a, request)
    case Give(addr, request) => addr in a.live && a.live[addr] == Align(request) >= HEADER
  }

  function Step(a: Arena, op: Op): Arena {
    match op
    case Take(request) => Alloc(a, request).0
    case Give(addr, request) => Free(a, addr, request)
  }

  ghost predicate ProperRun(a: Arena, ops: seq<Op>)
    decreases |ops|
  {
    ops == [] || (Proper(a, ops[0]) && ProperRun(Step(a, ops[0]), ops[1..]))
  }

  function Run(a: Arena, ops: seq<Op>): Arena
    decreases |ops|
  {
    if ops == [] then a else Run(Step(a, ops[0]), ops[1..])
  }

  /** Over every proper run the blocks, live and free, stay aligned, disjoint and inside. */
  lemma {:induction false} RunSafe(a: Arena, ops: seq<Op>)
    requires Safe(a) && ProperRun(a, ops)
    ensures Safe(Run(a, ops))
    decreases |ops|
  {
    if ops != [] {
      match ops[0] {
        case Take(request) => AllocKeeps(a, request);
        case Give(addr, request) => FreeKeepsExactly(a, addr, request);
      }
      RunSafe(Step(a, ops[0]), ops[1..]);
    }
  }

  lemma AllocatorSafety(size: nat, ops: seq<Op>)
    requires size < TWO64 && ProperRun(Arena(size, 0, [], map[]), ops)
    ensures Safe(Run(Arena(size, 0, [], map[]), ops))
  {
    RunSafe(Arena(size, 0, [], map[]), ops);
  }
}
