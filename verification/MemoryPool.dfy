/**
 The pool object of src/utils/memory.c, with its free list threaded through the memory it manages.
 */
module MemoryPool {
  import opened Common
  import opened MemorySpec

  /** The offset the list cell before position `i` points to. */
  ghost function Ref(free: seq<Chunk>, i: nat): int {
    if i < |free| then free[i].addr else -1
  }

  /** The word at byte offset `addr`. */
  function Cell(addr: nat): nat {
    addr / 8
  }

  /** The first two words of the `i`-th free chunk are its header. */
  ghost predicate Headed(words: seq<int>, free: seq<Chunk>, i: nat)
    requires i < |free|
  {
    var c := Cell(free[i].addr);
    c + 1 < |words| && words[c] == free[i].size && words[c + 1] == Ref(free, i + 1)
  }

  ghost predicate Threaded(words: seq<int>, free: seq<Chunk>) {
    forall i :: 0 <= i < |free| ==> Headed(words, free, i)
  }

  /** Word `w` belongs to the block of `s` bytes at `addr`. */
  ghost predicate Within(w: int, addr: nat, s: nat) {
    addr <= 8 * w < addr + s
  }

  /** No live block of `live` differs between the two memories. */
  ghost predicate Undisturbed(live: map<nat, nat>, before: seq<int>, after: seq<int>) {
    |before| == |after| &&
    forall x, w :: x in live && 0 <= w < |before| && Within(w, x, live[x]) ==> after[w] == before[w]
  }

  /** The headers at `a` and `b` share no word. */
  ghost predicate Clear(a: nat, b: nat) {
    Cell(a) + 1 < Cell(b) || Cell(b) + 1 < Cell(a)
  }

  lemma HeadersApart(a: nat, s: nat, b: nat, t: nat)
    requires a % 8 == 0 && b % 8 == 0 && s >= HEADER && t >= HEADER && Apart(a, s, b, t)
    ensures Clear(a, b)
  {
  }

  lemma HeadersClear(a: Arena, k: nat)
    requires Safe(a) && k < |a.free|
    ensures forall i :: 0 <= i < |a.free| && i != k ==> Clear(a.free[i].addr, a.free[k].addr)
  {
    forall i | 0 <= i < |a.free| && i != k
      ensures Clear(a.free[i].addr, a.free[k].addr)
    {
      var x, y := a.free[i], a.free[k];
      assert i < k || k < i;
      HeadersApart(x.addr, x.size, y.addr, y.size);
    }
  }

  /** The second word of a free chunk lies in no live block. */
  lemma LinkIsFree(a: Arena, k: nat, before: seq<int>, value: int)
    requires Safe(a) && k < |a.free| && Cell(a.free[k].addr) + 1 < |before|
    ensures Undisturbed(a.live, before, before[Cell(a.free[k].addr) + 1 := value])
  {
    forall x | x in a.live
      ensures !Within(Cell(a.free[k].addr) + 1, x, a.live[x])
    {
      assert Apart(a.free[k].addr, a.free[k].size, x, a.live[x]);
    }
  }

  function Rest(free: seq<Chunk>, k: nat): (r: seq<Chunk>)
    requires k < |free|
    ensures |r| == |free| - 1
    ensures forall i :: 0 <= i < |r| ==> r[i] == free[if i < k then i else i + 1]
  {
    free[..k] + free[k + 1..]
  }

  lemma PopFront(words: seq<int>, free: seq<Chunk>)
    requires Threaded(words, free) && |free| > 0 && Headed(words, free, 0)
    ensures Threaded(words, Rest(free, 0)) && Ref(Rest(free, 0), 0) == words[Cell(free[0].addr) + 1]
  {
    var r := Rest(free, 0);
    forall i | 0 <= i < |r|
      ensures Headed(words, r, i)
    {
      assert Headed(words, free, i + 1);
    }
  }

  /** Writing the successor of chunk `k` into the link of the chunk before it takes `k` out. */
  lemma SkipOver(words: seq<int>, free: seq<Chunk>, k: nat)
    requires Threaded(words, free) && 0 < k < |free|
    requires forall i :: 0 <= i < |free| && i != k - 1 ==> Clear(free[i].addr, free[k - 1].addr)
    requires Headed(words, free, k - 1) && Headed(words, free, k)
    ensures Threaded(words[Cell(free[k - 1].addr) + 1 := words[Cell(free[k].addr) + 1]], Rest(free, k))
    ensures Ref(Rest(free, k), 0) == Ref(free, 0)
  {
    var r := Rest(free, k);
    var after := words[Cell(free[k - 1].addr) + 1 := words[Cell(free[k].addr) + 1]];
    forall i | 0 <= i < |r|
      ensures Headed(after, r, i)
    {
      var j := if i < k then i else i + 1;
      assert Headed(words, free, j);
      assert r[i] == free[j];
      if i != k - 1 {
        assert Clear(free[j].addr, free[k - 1].addr);
      }
    }
  }

  /** The write that takes chunk `k` out of the list, in place. */
  lemma Skipped(a: Arena, words: seq<int>, k: nat)
    requires Safe(a) && Threaded(words, a.free) && 0 < k < |a.free|
    requires Headed(words, a.free, k - 1) && Headed(words, a.free, k)
    ensures var after := words[Cell(a.free[k - 1].addr) + 1 := words[Cell(a.free[k].addr) + 1]];
      && Threaded(after, Rest(a.free, k)) && Ref(Rest(a.free, k), 0) == Ref(a.free, 0)
      && Undisturbed(a.live, words, after)
  {
    HeadersClear(a, k - 1);
    SkipOver(words, a.free, k);
    LinkIsFree(a, k - 1, words, words[Cell(a.free[k].addr) + 1]);
  }

  /** A live block's header words are in no free chunk's header. */
  lemma OwnHeader(a: Arena, addr: nat)
    requires Safe(a) && addr in a.live && a.live[addr] >= HEADER
    ensures forall i :: 0 <= i < |a.free| ==> Clear(a.free[i].addr, addr)
  {
    forall i | 0 <= i < |a.free|
      ensures Clear(a.free[i].addr, addr)
    {
      HeadersApart(a.free[i].addr, a.free[i].size, addr, a.live[addr]);
    }
  }

  /** A live block's header words are in no other live block. */
  lemma HeaderIsOwn(a: Arena, addr: nat, before: seq<int>, after: seq<int>)
    requires Safe(a) && addr in a.live && a.live[addr] >= HEADER && |before| == |after|
    requires forall w :: 0 <= w < |before| && w != Cell(addr) && w != Cell(addr) + 1 ==> after[w] == before[w]
    ensures Undisturbed(a.live - {addr}, before, after)
  {
    forall x, w | x in a.live - {addr} && 0 <= w < |before| && Within(w, x, a.live[x])
      ensures after[w] == before[w]
    {
      assert Apart(addr, a.live[addr], x, a.live[x]);
    }
  }

  /** Memory once the header of a freed block of `s` bytes is written. */
  function WithHeader(words: seq<int>, addr: nat, s: nat, link: int): (r: seq<int>)
    requires Cell(addr) + 1 < |words|
  {
    words[Cell(addr) := s][Cell(addr) + 1 := link]
  }

  /** The header of a freed block of 8 bytes reaches into the live block behind it. */
  lemma SmallFreeOverwrites(live: map<nat, nat>, words: seq<int>, addr: nat, link: int)
    requires addr % 8 == 0 && addr + 8 in live && live[addr + 8] > 0
    requires Cell(addr) + 1 < |words| && words[Cell(addr) + 1] != link
    ensures !Undisturbed(live - {addr}, words, WithHeader(words, addr, 8, link))
  {
    var w, rest := Cell(addr) + 1, live - {addr};
    assert addr + 8 in rest && Within(w, addr + 8, rest[addr + 8]);
    assert WithHeader(words, addr, 8, link)[w] != words[w];
  }

  lemma PushFront(words: seq<int>, after: seq<int>, free: seq<Chunk>, chunk: Chunk)
    requires Threaded(words, free) && Cell(chunk.addr) + 1 < |words|
    requires forall i :: 0 <= i < |free| ==> Clear(free[i].addr, chunk.addr)
    requires after == words[Cell(chunk.addr) := chunk.size][Cell(chunk.addr) + 1 := Ref(free, 0)]
    ensures Threaded(after, [chunk] + free)
  {
    var f := [chunk] + free;
    forall i | 0 <= i < |f|
      ensures Headed(after, f, i)
    {
      if i > 0 {
        assert Headed(words, free, i - 1) && f[i] == free[i - 1];
        assert Clear(free[i - 1].addr, chunk.addr);
      }
    }
  }

  /** The writes that put a live block in front of the list. */
  lemma Freed(a: Arena, words: seq<int>, addr: nat, request: nat)
    requires Safe(a) && Threaded(words, a.free) && addr in a.live && a.live[addr] == Align(request) >= HEADER
    requires Cell(addr) + 1 < |words|
    ensures var after := WithHeader(words, addr, Align(request), Ref(a.free, 0)); var b := MemorySpec.Free(a, addr, request);
      Safe(b) && Threaded(after, b.free) && Undisturbed(b.live, words, after)
  {
    var after := WithHeader(words, addr, Align(request), Ref(a.free, 0));
    FreeKeepsExactly(a, addr, request);
    OwnHeader(a, addr);
    PushFront(words, after, a.free, Chunk(addr, Align(request)));
    HeaderIsOwn(a, addr, words, after);
  }

  class Pool {
    const words: array<int>
    const size: nat
    var used: nat
    var freeList: int
    ghost var free: seq<Chunk>
    ghost var live: map<nat, nat>

    ghost function View(): Arena
      reads this
    {
      Arena(size, used, free, live)
    }

    ghost predicate Valid()
      reads this, words
    {
      && 8 * words.Length >= size
      && Safe(View())
      && freeList == Ref(free, 0)
      && Threaded(words[..], free)
    }

    constructor (size: nat)
      requires size < TWO64
      ensures Valid() && fresh(words)
      ensures View() == Arena(size, 0, [], map[])
    {
      this.size := size;
      words := new int[(size + 7) / 8];
      used, freeList, free, live := 0, -1, [], map[];
    }

    /** The first chunk large enough and the chunk before it, -1 standing for none. */
    method Search(s: nat) returns (prev: int, chunk: int)
      requires Valid()
      ensures var f := FirstFit(free, s);
        && chunk == (if f.None? then -1 else free[f.value].addr)
        && (f.Some? ==> prev == if f.value == 0 then -1 else free[f.value - 1].addr)
    {
      prev, chunk := -1, freeList;
      ghost var k := 0;
      while chunk != -1
        invariant 0 <= k <= |free|
        invariant chunk == Ref(free, k)
        invariant if k == 0 then prev == -1 else prev == free[k - 1].addr
        invariant forall i :: 0 <= i < k ==> free[i].size < s
        decreases |free| - k
      {
        assert Headed(words[..], free, k);
        if words[Cell(chunk)] >= s {
          return;
        }
        prev := chunk;
        chunk := words[Cell(chunk) + 1];
        k := k + 1;
      }
    }

    /** Takes out chunk `k`, which is not the first, by the link of the one before it. */
    method Bypass(prev: nat, chunk: nat, ghost k: nat)
      requires Valid() && 0 < k < |free| && chunk == free[k].addr && prev == free[k - 1].addr
      modifies words
      ensures Undisturbed(live, old(words[..]), words[..])
      ensures Ref(Rest(free, k), 0) == freeList && Threaded(words[..], Rest(free, k))
    {
      ghost var before := words[..];
      assert Headed(before, free, k) && Headed(before, free, k - 1);
      Skipped(View(), before, k);
      words[Cell(prev) + 1] := words[Cell(chunk) + 1];
      assert words[..] == before[Cell(prev) + 1 := before[Cell(chunk) + 1]];
    }

    method Unlink(prev: int, chunk: int, ghost k: nat)
      requires Valid() && k < |free| && chunk == free[k].addr
      requires if k == 0 then prev == -1 else prev == free[k - 1].addr
      modifies this`freeList, words
      ensures Undisturbed(live, old(words[..]), words[..])
      ensures freeList == Ref(Rest(free, k), 0) && Threaded(words[..], Rest(free, k))
    {
      if prev != -1 {
        Bypass(prev, chunk, k);
      } else {
        assert Headed(words[..], free, 0);
        PopFront(words[..], free);
        freeList := words[Cell(chunk) + 1];
      }
    }

    /** Hands out the chunk at place `k` for a block of `s` bytes. */
    method Reuse(prev: int, chunk: nat, ghost k: nat, s: nat)
      requires Valid() && k < |free| && chunk == free[k].addr && s <= free[k].size && s % 8 == 0
      requires if k == 0 then prev == -1 else prev == free[k - 1].addr
      modifies this`freeList, this`free, this`live, words
      ensures Valid() && used == old(used)
      ensures free == Rest(old(free), k) && live == Hold(old(live), chunk, s)
      ensures Undisturbed(old(live), old(words[..]), words[..])
    {
      ReuseKeeps(View(), k, s);
      Unlink(prev, chunk, k);
      free := Rest(free, k);
      live := Hold(live, chunk, s);
    }

    method Alloc(request: nat) returns (ptr: Option<nat>)
      requires Valid()
      modifies this`used, this`freeList, this`free, this`live, words
      ensures Servable(old(View()), request) ==> Valid()
      ensures (View(), ptr) == MemorySpec.Alloc(old(View()), request)
      ensures Undisturbed(old(live), old(words[..]), words[..])
    {
      var s := Align(request);
      if Servable(View(), request) {
        AllocKeeps(View(), request);
      }
      var prev, chunk := Search(s);
      if chunk != -1 {
        Reuse(prev, chunk, FirstFit(free, s).value, s);
        return Some(chunk);
      }
      if U64(used + s) > size {
        return None;
      }
      ptr := Some(used);
      live := Hold(live, used, s);
      used := U64(used + s);
    }

    /** `ptr` is a live block of the size given, with room for a header. */
    ghost predicate Freeable(ptr: nat, request: nat)
      reads this
    {
      ptr in live && live[ptr] == Align(request) >= HEADER
    }

    /** Memory and list head change alike whatever is freed; the pool stays valid and the other
        live blocks intact when it is a live block with room for a header. */
    method Free(ptr: Option<nat>, request: nat)
      requires Valid()
      requires ptr.Some? ==> Cell(ptr.value) + 1 < words.Length
      modifies this`freeList, this`free, this`live, words
      ensures View() == if ptr.None? then old(View()) else MemorySpec.Free(old(View()), ptr.value, request)
      ensures if ptr.None? then freeList == old(freeList) && words[..] == old(words[..])
              else freeList == ptr.value && words[..] == WithHeader(old(words[..]), ptr.value, Align(request), old(freeList))
      ensures ptr.None? || old(Freeable(ptr.value, request)) ==> Valid() && Undisturbed(live, old(words[..]), words[..])
    {
      if ptr.None? {
        return;
      }
      var addr, s := ptr.value, Align(request);
      ghost var a, before := View(), words[..];
      words[Cell(addr)] := s;
      words[Cell(addr) + 1] := freeList;
      assert words[..] == WithHeader(before, addr, s, freeList);
      if Freeable(addr, request) {
        Freed(a, before, addr, request);
      }
      freeList := addr;
      free := [Chunk(addr, s)] + free;
      live := live - {addr};
    }

    /** The owner of a live block stores a value in one of its words. */
    method Store(addr: nat, w: nat, value: int)
      requires Valid() && addr in live && Within(w, addr, live[addr])
      modifies words
      ensures Valid()
      ensures words[..] == old(words[..])[w := value]
    {
      ghost var before := words[..];
      words[w] := value;
      forall i | 0 <= i < |free|
        ensures Headed(words[..], free, i)
      {
        assert Headed(before, free, i);
        assert Apart(free[i].addr, free[i].size, addr, live[addr]);
      }
    }
  }
}
