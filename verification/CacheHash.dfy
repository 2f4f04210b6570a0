/** The Jenkins hash of cache keys and the bucket it selects. */
module CacheHash {
  import opened CacheSpec

  /** A `char` added to a `uint32_t` is sign-extended. */
  function Widen(b: KeyByte): bv32 {
    if b < 128 then b as bv32 else (b as bv32) | 0xFFFF_FF00
  }

  function MixByte(hash: bv32, b: KeyByte): bv32 {
    var h1 := hash + Widen(b);
    var h2 := h1 + (h1 << 10);
    h2 ^ (h2 >> 6)
  }

  function Mix(key: Key): bv32 {
    if key == [] then 0 else MixByte(Mix(key[..|key| - 1]), key[|key| - 1])
  }

  function Finish(hash: bv32): bv32 {
    var h1 := hash + (hash << 3);
    var h2 := h1 ^ (h1 >> 11);
    h2 + (h2 << 15)
  }

  function HashKey(key: Key): bv32 {
    Finish(Mix(key))
  }

  /** The mask is 16381 - 1, which is not all ones; it still stays inside the table. */
  function Slot(hash: bv32): (i: Index) {
    assert hash & 16380 <= 16380;
    (hash & 16380) as nat
  }

  function SlotOf(key: Key): Index {
    Slot(HashKey(key))
  }

  method ComputeHash(key: Key) returns (hash: bv32)
    ensures hash == HashKey(key)
  {
    hash := 0;
    for i := 0 to |key|
      invariant hash == Mix(key[..i])
    {
      assert key[..i + 1][..i] == key[..i];
      hash := MixByte(hash, key[i]);
    }
    assert key[..|key|] == key;
    hash := Finish(hash);
  }

  lemma HashesStep(key: Key, b: KeyByte)
    ensures Mix(key + [b]) == MixByte(Mix(key), b)
  {
    assert (key + [b])[..|key|] == key;
  }

  /** Values of the hash, the last one of a byte above 127. */
  lemma HashVectors()
    ensures HashKey([]) == 0 && HashKey([97]) == 0xca2e9442 && HashKey([97, 98]) == 0x45e61e58 && HashKey([233]) == 0x409848ff
    ensures SlotOf([97]) == 5184
  {
    HashesStep([], 97);
    HashesStep([97], 98);
    HashesStep([], 233);
    assert [] + [97] == [97] && [97] + [98] == [97, 98] && [] + [233] == [233];
  }
}
