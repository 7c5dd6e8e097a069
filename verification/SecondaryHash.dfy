/** The mixing function behind hash 2 of the single-table store, on 32-bit words that wrap around. */
module SecondaryHash {

  /** `>>` by 19 and by 16 on a signed int: the sign bit is shifted in. */
  function Right19(a: bv32): bv32 {
    if a & 0x8000_0000 == 0 then a >> 19 else !(!a >> 19)
  }

  function Right16(a: bv32): bv32 {
    if a & 0x8000_0000 == 0 then a >> 16 else !(!a >> 16)
  }

  function Mixed(key: bv32): bv32 {
    var a := (key + 0x7ed5_5d16) + (key << 12);
    var b := (a ^ 0xc761_c23c) ^ Right19(a);
    var c := (b + 0x1656_67b1) + (b << 5);
    var d := (c + 0xd3a2_646c) ^ (c << 9);
    var e := (d + 0xfd70_46c5) + (d << 3);
    (e ^ 0xb55a_4f09) ^ Right16(e)
  }

  /** `secondary_hash` of an int key, as the unsigned number it returns. */
  function Mix(key: int): nat {
    Mixed((key % 0x1_0000_0000) as bv32) as nat
  }

  /** The secondary bucket, among eight, of the key with these bits. */
  function SecondOfEight(word: bv32): nat {
    Mixed(word) as nat % 8
  }

  lemma MixOfWord(key: int, word: bv32)
    requires 0 <= key < 1000 && key % 0x1_0000_0000 == key && word == key as bv32
    ensures Mix(key) % 8 == SecondOfEight(word)
  {
  }
}
