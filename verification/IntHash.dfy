/** Integer hashes.  Every step of `IntHashImpl` can be undone, so the whole is a bijection on machine
words; that is what makes combined hashes and hashes of ranges tell apart what they are made of. */
module IntHash {

  // ---------------------------------------------------------------- 32 bits

  // Named, so that the proofs can treat the operations as symbols.
  function Plus(a: bv32, b: bv32): bv32 { a + b }

  function Complement(a: bv32): bv32 { !a }

  function Shift3(a: bv32): bv32 { a << 3 }

  /** `key += ~(key << 15)` */
  function AddNot15(k: bv32): bv32 { Plus(k, Complement(k << 15)) }

  /** `key ^= key >> 10` */
  function Xor10(k: bv32): bv32 { k ^ (k >> 10) }

  /** `key += key << 3` */
  function Add3(k: bv32): bv32 { Plus(k, Shift3(k)) }

  /** `key ^= key >> 6` */
  function Xor6(k: bv32): bv32 { k ^ (k >> 6) }

  /** `key += ~(key << 11)` */
  function AddNot11(k: bv32): bv32 { Plus(k, Complement(k << 11)) }

  /** `key ^= key >> 16` */
  function Xor16(k: bv32): bv32 { k ^ (k >> 16) }

  /** `IntHashImpl(ui32)` */
  function Hash32(k: bv32): bv32 {
    Xor16(AddNot11(Xor6(Add3(Xor10(AddNot15(k))))))
  }

  // The steps undone: an odd factor has an inverse, and a shifted copy is peeled off.

  function UnAddNot15(k: bv32): bv32 { (k + 1) * 0x4000_8001 }

  function UnXor10(k: bv32): bv32 { k ^ (k >> 10) ^ (k >> 20) ^ (k >> 30) }

  function UnAdd3(k: bv32): bv32 { k * 0x38e3_8e39 }

  function UnXor6(k: bv32): bv32 { k ^ (k >> 6) ^ (k >> 12) ^ (k >> 18) ^ (k >> 24) ^ (k >> 30) }

  function UnAddNot11(k: bv32): bv32 { (k + 1) * 0x0040_0801 }

  function UnXor16(k: bv32): bv32 { k ^ (k >> 16) }

  function Unhash32(k: bv32): bv32 {
    UnAddNot15(UnXor10(UnAdd3(UnXor6(UnAddNot11(UnXor16(k))))))
  }

  function AddNot15Line(k: bv32): bv32 { k * 0xffff_8001 - 1 }

  lemma AddNot15Words(k: bv32)
    ensures Complement(k << 15) == 0xffff_ffff - k * 0x8000
    ensures Plus(k, 0xffff_ffff - k * 0x8000) == k * 0xffff_8001 - 1 && AddNot15Line(k) == k * 0xffff_8001 - 1
    ensures UnAddNot15(k * 0xffff_8001 - 1) == k && UnAddNot15(k) == (k + 1) * 0x4000_8001 && AddNot15Line((k + 1) * 0x4000_8001) == k
  {
  }

  lemma AddNot15Undone(k: bv32)
    ensures UnAddNot15(AddNot15(k)) == k && AddNot15(UnAddNot15(k)) == k
  {
    hide UnAddNot15, AddNot15Line, Plus, Complement, Shift3;
    AddNot15Words(k);
    AddNot15Words(UnAddNot15(k));
  }

  lemma Xor10Words(k: bv32)
    ensures Xor10(k) == k ^ (k >> 10) && UnXor10(k ^ (k >> 10)) == k
    ensures UnXor10(k) == k ^ (k >> 10) ^ (k >> 20) ^ (k >> 30)
    ensures Xor10(k ^ (k >> 10) ^ (k >> 20) ^ (k >> 30)) == k
  {
  }

  lemma Xor10Undone(k: bv32)
    ensures UnXor10(Xor10(k)) == k && Xor10(UnXor10(k)) == k
  {
    hide Xor10, UnXor10;
    Xor10Words(k);
  }

  function Add3Line(k: bv32): bv32 { k * 0x0009 }

  lemma Add3Words(k: bv32)
    ensures Shift3(k) == k * 0x0008
    ensures Plus(k, k * 0x0008) == k * 0x0009 && Add3Line(k) == k * 0x0009
    ensures UnAdd3(k * 0x0009) == k && UnAdd3(k) == k * 0x38e3_8e39 && Add3Line(k * 0x38e3_8e39) == k
  {
  }

  lemma Add3Undone(k: bv32)
    ensures UnAdd3(Add3(k)) == k && Add3(UnAdd3(k)) == k
  {
    hide UnAdd3, Add3Line, Plus, Complement, Shift3;
    Add3Words(k);
    Add3Words(UnAdd3(k));
  }

  lemma Xor6Words(k: bv32)
    ensures Xor6(k) == k ^ (k >> 6) && UnXor6(k ^ (k >> 6)) == k
    ensures UnXor6(k) == k ^ (k >> 6) ^ (k >> 12) ^ (k >> 18) ^ (k >> 24) ^ (k >> 30)
    ensures Xor6(k ^ (k >> 6) ^ (k >> 12) ^ (k >> 18) ^ (k >> 24) ^ (k >> 30)) == k
  {
  }

  lemma Xor6Undone(k: bv32)
    ensures UnXor6(Xor6(k)) == k && Xor6(UnXor6(k)) == k
  {
    hide Xor6, UnXor6;
    Xor6Words(k);
  }

  function AddNot11Line(k: bv32): bv32 { k * 0xffff_f801 - 1 }

  lemma AddNot11Words(k: bv32)
    ensures Complement(k << 11) == 0xffff_ffff - k * 0x0800
    ensures Plus(k, 0xffff_ffff - k * 0x0800) == k * 0xffff_f801 - 1 && AddNot11Line(k) == k * 0xffff_f801 - 1
    ensures UnAddNot11(k * 0xffff_f801 - 1) == k && UnAddNot11(k) == (k + 1) * 0x0040_0801 && AddNot11Line((k + 1) * 0x0040_0801) == k
  {
  }

  lemma AddNot11Undone(k: bv32)
    ensures UnAddNot11(AddNot11(k)) == k && AddNot11(UnAddNot11(k)) == k
  {
    hide UnAddNot11, AddNot11Line, Plus, Complement, Shift3;
    AddNot11Words(k);
    AddNot11Words(UnAddNot11(k));
  }

  lemma Xor16Words(k: bv32)
    ensures Xor16(k) == k ^ (k >> 16) && UnXor16(k ^ (k >> 16)) == k
    ensures UnXor16(k) == k ^ (k >> 16)
    ensures Xor16(k ^ (k >> 16)) == k
  {
  }

  lemma Xor16Undone(k: bv32)
    ensures UnXor16(Xor16(k)) == k && Xor16(UnXor16(k)) == k
  {
    hide Xor16, UnXor16;
    Xor16Words(k);
  }

  /** The hash is a bijection: it has an inverse on both sides. */
  lemma Hash32Bijective(k: bv32)
    ensures Unhash32(Hash32(k)) == k && Hash32(Unhash32(k)) == k
  {
    hide AddNot15, Xor10, Add3, Xor6, AddNot11, Xor16, UnAddNot15, UnXor10, UnAdd3, UnXor6, UnAddNot11, UnXor16;
    AddNot15Undone(k);
    var a1 := AddNot15(k);
    Xor10Undone(a1);
    var a2 := Xor10(a1);
    Add3Undone(a2);
    var a3 := Add3(a2);
    Xor6Undone(a3);
    var a4 := Xor6(a3);
    AddNot11Undone(a4);
    var a5 := AddNot11(a4);
    Xor16Undone(a5);
    Xor16Undone(k);
    var b1 := UnXor16(k);
    AddNot11Undone(b1);
    var b2 := UnAddNot11(b1);
    Xor6Undone(b2);
    var b3 := UnXor6(b2);
    Add3Undone(b3);
    var b4 := UnAdd3(b3);
    Xor10Undone(b4);
    var b5 := UnXor10(b4);
    AddNot15Undone(b5);
  }

  // ---------------------------------------------------------------- 64 bits

  // Named, so that the proofs can treat the operations as symbols.
  function PlusLong(a: bv64, b: bv64): bv64 { a + b }

  function ComplementLong(a: bv64): bv64 { !a }

  function Shift3Long(a: bv64): bv64 { a << 3 }

  /** `key += ~(key << 32)` */
  function AddNot32Long(k: bv64): bv64 { PlusLong(k, ComplementLong(k << 32)) }

  /** `key ^= key >> 22` */
  function Xor22Long(k: bv64): bv64 { k ^ (k >> 22) }

  /** `key += ~(key << 13)` */
  function AddNot13Long(k: bv64): bv64 { PlusLong(k, ComplementLong(k << 13)) }

  /** `key ^= key >> 8` */
  function Xor8Long(k: bv64): bv64 { k ^ (k >> 8) }

  /** `key += key << 3` */
  function Add3Long(k: bv64): bv64 { PlusLong(k, Shift3Long(k)) }

  /** `key ^= key >> 15` */
  function Xor15Long(k: bv64): bv64 { k ^ (k >> 15) }

  /** `key += ~(key << 27)` */
  function AddNot27Long(k: bv64): bv64 { PlusLong(k, ComplementLong(k << 27)) }

  /** `key ^= key >> 31` */
  function Xor31Long(k: bv64): bv64 { k ^ (k >> 31) }

  /** `IntHashImpl(ui64)` */
  function Hash64(k: bv64): bv64 {
    Xor31Long(AddNot27Long(Xor15Long(Add3Long(Xor8Long(AddNot13Long(Xor22Long(AddNot32Long(k))))))))
  }

  // The steps undone: an odd factor has an inverse, and a shifted copy is peeled off.

  function UnAddNot32Long(k: bv64): bv64 { (k + 1) * 0x0001_0000_0001 }

  function UnXor22Long(k: bv64): bv64 { k ^ (k >> 22) ^ (k >> 44) }

  function UnAddNot13Long(k: bv64): bv64 { (k + 1) * 0x0010_0080_0400_2001 }

  function UnXor8Long(k: bv64): bv64 { k ^ (k >> 8) ^ (k >> 16) ^ (k >> 24) ^ (k >> 32) ^ (k >> 40) ^ (k >> 48) ^ (k >> 56) }

  function UnAdd3Long(k: bv64): bv64 { k * 0x8e38_e38e_38e3_8e39 }

  function UnXor15Long(k: bv64): bv64 { k ^ (k >> 15) ^ (k >> 30) ^ (k >> 45) ^ (k >> 60) }

  function UnAddNot27Long(k: bv64): bv64 { (k + 1) * 0x0040_0000_0800_0001 }

  function UnXor31Long(k: bv64): bv64 { k ^ (k >> 31) ^ (k >> 62) }

  function Unhash64(k: bv64): bv64 {
    UnAddNot32Long(UnXor22Long(UnAddNot13Long(UnXor8Long(UnAdd3Long(UnXor15Long(UnAddNot27Long(UnXor31Long(k))))))))
  }

  function AddNot32LongLine(k: bv64): bv64 { k * 0xffff_ffff_0000_0001 - 1 }

  lemma AddNot32LongWords(k: bv64)
    ensures ComplementLong(k << 32) == 0xffff_ffff_ffff_ffff - k * 0x0001_0000_0000
    ensures PlusLong(k, 0xffff_ffff_ffff_ffff - k * 0x0001_0000_0000) == k * 0xffff_ffff_0000_0001 - 1 && AddNot32LongLine(k) == k * 0xffff_ffff_0000_0001 - 1
    ensures UnAddNot32Long(k * 0xffff_ffff_0000_0001 - 1) == k && UnAddNot32Long(k) == (k + 1) * 0x0001_0000_0001 && AddNot32LongLine((k + 1) * 0x0001_0000_0001) == k
  {
  }

  lemma AddNot32LongUndone(k: bv64)
    ensures UnAddNot32Long(AddNot32Long(k)) == k && AddNot32Long(UnAddNot32Long(k)) == k
  {
    hide UnAddNot32Long, AddNot32LongLine, PlusLong, ComplementLong, Shift3Long;
    AddNot32LongWords(k);
    AddNot32LongWords(UnAddNot32Long(k));
  }

  lemma Xor22LongWords(k: bv64)
    ensures Xor22Long(k) == k ^ (k >> 22) && UnXor22Long(k ^ (k >> 22)) == k
    ensures UnXor22Long(k) == k ^ (k >> 22) ^ (k >> 44)
    ensures Xor22Long(k ^ (k >> 22) ^ (k >> 44)) == k
  {
  }

  lemma Xor22LongUndone(k: bv64)
    ensures UnXor22Long(Xor22Long(k)) == k && Xor22Long(UnXor22Long(k)) == k
  {
    hide Xor22Long, UnXor22Long;
    Xor22LongWords(k);
  }

  function AddNot13LongLine(k: bv64): bv64 { k * 0xffff_ffff_ffff_e001 - 1 }

  lemma AddNot13LongWords(k: bv64)
    ensures ComplementLong(k << 13) == 0xffff_ffff_ffff_ffff - k * 0x2000
    ensures PlusLong(k, 0xffff_ffff_ffff_ffff - k * 0x2000) == k * 0xffff_ffff_ffff_e001 - 1 && AddNot13LongLine(k) == k * 0xffff_ffff_ffff_e001 - 1
    ensures UnAddNot13Long(k * 0xffff_ffff_ffff_e001 - 1) == k && UnAddNot13Long(k) == (k + 1) * 0x0010_0080_0400_2001 && AddNot13LongLine((k + 1) * 0x0010_0080_0400_2001) == k
  {
  }

  lemma AddNot13LongUndone(k: bv64)
    ensures UnAddNot13Long(AddNot13Long(k)) == k && AddNot13Long(UnAddNot13Long(k)) == k
  {
    hide UnAddNot13Long, AddNot13LongLine, PlusLong, ComplementLong, Shift3Long;
    AddNot13LongWords(k);
    AddNot13LongWords(UnAddNot13Long(k));
  }

  lemma Xor8LongWords(k: bv64)
    ensures Xor8Long(k) == k ^ (k >> 8) && UnXor8Long(k ^ (k >> 8)) == k
    ensures UnXor8Long(k) == k ^ (k >> 8) ^ (k >> 16) ^ (k >> 24) ^ (k >> 32) ^ (k >> 40) ^ (k >> 48) ^ (k >> 56)
    ensures Xor8Long(k ^ (k >> 8) ^ (k >> 16) ^ (k >> 24) ^ (k >> 32) ^ (k >> 40) ^ (k >> 48) ^ (k >> 56)) == k
  {
  }

  lemma Xor8LongUndone(k: bv64)
    ensures UnXor8Long(Xor8Long(k)) == k && Xor8Long(UnXor8Long(k)) == k
  {
    hide Xor8Long, UnXor8Long;
    Xor8LongWords(k);
  }

  function Add3LongLine(k: bv64): bv64 { k * 0x0009 }

  lemma Add3LongWords(k: bv64)
    ensures Shift3Long(k) == k * 0x0008
    ensures PlusLong(k, k * 0x0008) == k * 0x0009 && Add3LongLine(k) == k * 0x0009
    ensures UnAdd3Long(k * 0x0009) == k && UnAdd3Long(k) == k * 0x8e38_e38e_38e3_8e39 && Add3LongLine(k * 0x8e38_e38e_38e3_8e39) == k
  {
  }

  lemma Add3LongUndone(k: bv64)
    ensures UnAdd3Long(Add3Long(k)) == k && Add3Long(UnAdd3Long(k)) == k
  {
    hide UnAdd3Long, Add3LongLine, PlusLong, ComplementLong, Shift3Long;
    Add3LongWords(k);
    Add3LongWords(UnAdd3Long(k));
  }

  lemma Xor15LongWords(k: bv64)
    ensures Xor15Long(k) == k ^ (k >> 15) && UnXor15Long(k ^ (k >> 15)) == k
    ensures UnXor15Long(k) == k ^ (k >> 15) ^ (k >> 30) ^ (k >> 45) ^ (k >> 60)
    ensures Xor15Long(k ^ (k >> 15) ^ (k >> 30) ^ (k >> 45) ^ (k >> 60)) == k
  {
  }

  lemma Xor15LongUndone(k: bv64)
    ensures UnXor15Long(Xor15Long(k)) == k && Xor15Long(UnXor15Long(k)) == k
  {
    hide Xor15Long, UnXor15Long;
    Xor15LongWords(k);
  }

  function AddNot27LongLine(k: bv64): bv64 { k * 0xffff_ffff_f800_0001 - 1 }

  lemma AddNot27LongWords(k: bv64)
    ensures ComplementLong(k << 27) == 0xffff_ffff_ffff_ffff - k * 0x0800_0000
    ensures PlusLong(k, 0xffff_ffff_ffff_ffff - k * 0x0800_0000) == k * 0xffff_ffff_f800_0001 - 1 && AddNot27LongLine(k) == k * 0xffff_ffff_f800_0001 - 1
    ensures UnAddNot27Long(k * 0xffff_ffff_f800_0001 - 1) == k && UnAddNot27Long(k) == (k + 1) * 0x0040_0000_0800_0001 && AddNot27LongLine((k + 1) * 0x0040_0000_0800_0001) == k
  {
  }

  lemma AddNot27LongUndone(k: bv64)
    ensures UnAddNot27Long(AddNot27Long(k)) == k && AddNot27Long(UnAddNot27Long(k)) == k
  {
    hide UnAddNot27Long, AddNot27LongLine, PlusLong, ComplementLong, Shift3Long;
    AddNot27LongWords(k);
    AddNot27LongWords(UnAddNot27Long(k));
  }

  lemma Xor31LongWords(k: bv64)
    ensures Xor31Long(k) == k ^ (k >> 31) && UnXor31Long(k ^ (k >> 31)) == k
    ensures UnXor31Long(k) == k ^ (k >> 31) ^ (k >> 62)
    ensures Xor31Long(k ^ (k >> 31) ^ (k >> 62)) == k
  {
  }

  lemma Xor31LongUndone(k: bv64)
    ensures UnXor31Long(Xor31Long(k)) == k && Xor31Long(UnXor31Long(k)) == k
  {
    hide Xor31Long, UnXor31Long;
    Xor31LongWords(k);
  }

  /** The hash is a bijection: it has an inverse on both sides. */
  lemma Hash64Bijective(k: bv64)
    ensures Unhash64(Hash64(k)) == k && Hash64(Unhash64(k)) == k
  {
    hide AddNot32Long, Xor22Long, AddNot13Long, Xor8Long, Add3Long, Xor15Long, AddNot27Long, Xor31Long, UnAddNot32Long, UnXor22Long, UnAddNot13Long, UnXor8Long, UnAdd3Long, UnXor15Long, UnAddNot27Long, UnXor31Long;
    AddNot32LongUndone(k);
    var a1 := AddNot32Long(k);
    Xor22LongUndone(a1);
    var a2 := Xor22Long(a1);
    AddNot13LongUndone(a2);
    var a3 := AddNot13Long(a2);
    Xor8LongUndone(a3);
    var a4 := Xor8Long(a3);
    Add3LongUndone(a4);
    var a5 := Add3Long(a4);
    Xor15LongUndone(a5);
    var a6 := Xor15Long(a5);
    AddNot27LongUndone(a6);
    var a7 := AddNot27Long(a6);
    Xor31LongUndone(a7);
    Xor31LongUndone(k);
    var b1 := UnXor31Long(k);
    AddNot27LongUndone(b1);
    var b2 := UnAddNot27Long(b1);
    Xor15LongUndone(b2);
    var b3 := UnXor15Long(b2);
    Add3LongUndone(b3);
    var b4 := UnAdd3Long(b3);
    Xor8LongUndone(b4);
    var b5 := UnXor8Long(b4);
    AddNot13LongUndone(b5);
    var b6 := UnAddNot13Long(b5);
    Xor22LongUndone(b6);
    var b7 := UnXor22Long(b6);
    AddNot32LongUndone(b7);
  }

  // ---------------------------------------------------------------- known answers

  /** The hashes of some numbers; any other order of the steps gives others. */
  lemma KnownHashes()
    ensures Hash32(0) == 0x4636_b9c9 && Hash32(1) == 0x62ba_f5a0 && Hash32(0x1234_5678) == 0x0923_7efd
    ensures Hash64(0) == 0x6a39_6cd3_9c35_2659 && Hash64(1) == 0x2035_3c45_b09b_c659
    ensures Hash64(0x1234_5678_9abc_def0) == 0xe29c_cbb8_307f_8328
    ensures Combine32(1, 2) == 0x62ba_f5a2 && Combine(1, 2) == 0x2035_3c45_b09b_c65b
  {
  }

  // ---------------------------------------------------------------- combined hashes

  function Xor(a: bv64, b: bv64): bv64 { a ^ b }

  lemma XorWords(a: bv64, b: bv64)
    ensures Xor(a ^ b, b) == a && Xor(a ^ b, a) == b && Xor(a, b) == a ^ b
  {
  }

  /** `CombineHashes` on `size_t` */
  function Combine(l: bv64, r: bv64): bv64 {
    Xor(Hash64(l), r)
  }

  /** Either argument can be recovered from the other one. */
  lemma CombineInjective(l: bv64, r: bv64)
    ensures Xor(Combine(l, r), Hash64(l)) == r
    ensures Unhash64(Xor(Combine(l, r), r)) == l
  {
    hide Hash64, Unhash64, Xor;
    XorWords(Hash64(l), r);
    Hash64Bijective(l);
  }

  function Xor32(a: bv32, b: bv32): bv32 { a ^ b }

  lemma Xor32Words(a: bv32, b: bv32)
    ensures Xor32(a ^ b, b) == a && Xor32(a ^ b, a) == b && Xor32(a, b) == a ^ b
  {
  }

  /** `CombineHashes` on `ui32` */
  function Combine32(l: bv32, r: bv32): bv32 {
    Xor32(Hash32(l), r)
  }

  lemma Combine32Injective(l: bv32, r: bv32)
    ensures Xor32(Combine32(l, r), Hash32(l)) == r
    ensures Unhash32(Xor32(Combine32(l, r), r)) == l
  {
    hide Hash32, Unhash32, Xor32;
    Xor32Words(Hash32(l), r);
    Hash32Bijective(l);
  }

  /** What `TRangeHash` leaves of the element hashes after `acc`. */
  function Accumulated(acc: bv64, hashes: seq<bv64>): bv64
    decreases |hashes|
  {
    if hashes == [] then acc else Accumulated(Combine(acc, hashes[0]), hashes[1..])
  }

  /** The hash of the range of hashes 1, 2: the order counts. */
  lemma KnownRange()
    ensures Accumulated(0, [1, 2]) == 0x4ca2_8ced_c4b4_2701
    ensures Accumulated(0, [2, 1]) == 0x841c_0b37_d93d_96a0
  {
    hide Combine;
    KnownPairs();
    AccumulatedTwo(1, 2);
    AccumulatedTwo(2, 1);
  }

  lemma KnownPairs()
    ensures Combine(0, 1) == 0x6a39_6cd3_9c35_2658 && Combine(0x6a39_6cd3_9c35_2658, 2) == 0x4ca2_8ced_c4b4_2701
    ensures Combine(0, 2) == 0x6a39_6cd3_9c35_265b && Combine(0x6a39_6cd3_9c35_265b, 1) == 0x841c_0b37_d93d_96a0
  {
  }

  lemma AccumulatedTwo(a: bv64, b: bv64)
    ensures Accumulated(0, [a, b]) == Combine(Combine(0, a), b)
  {
    hide Combine;
    assert [a, b][1..] == [b] && [b][1..] == [];
    assert Accumulated(Combine(Combine(0, a), b), []) == Combine(Combine(0, a), b);
    assert Accumulated(Combine(0, a), [b]) == Combine(Combine(0, a), b);
  }

  /** `TRangeHash` */
  method RangeHash<T>(range: seq<T>, elementHash: T -> bv64) returns (accumulated: bv64)
    ensures accumulated == Accumulated(0, seq(|range|, i requires 0 <= i < |range| => elementHash(range[i])))
  {
    hide Combine;
    ghost var hashes := seq(|range|, i requires 0 <= i < |range| => elementHash(range[i]));
    accumulated := 0;
    var i := 0;
    assert hashes[0..] == hashes;
    while i < |range|
      invariant 0 <= i <= |range| && Accumulated(0, hashes) == Accumulated(accumulated, hashes[i..])
    {
      assert hashes[i..][1..] == hashes[i + 1..];
      accumulated := Combine(accumulated, elementHash(range[i]));
      i := i + 1;
    }
  }

  /** Different accumulators stay different, whatever follows. */
  lemma {:induction false} AccumulatedInjective(a: bv64, b: bv64, hashes: seq<bv64>)
    ensures Accumulated(a, hashes) == Accumulated(b, hashes) <==> a == b
    decreases |hashes|
  {
    hide Combine, Unhash64, Hash64, Xor;
    if hashes != [] {
      var r := hashes[0];
      CombineInjective(a, r);
      CombineInjective(b, r);
      AccumulatedInjective(Combine(a, r), Combine(b, r), hashes[1..]);
    }
  }

  lemma {:induction false} AccumulatedConcat(acc: bv64, a: seq<bv64>, b: seq<bv64>)
    ensures Accumulated(acc, a + b) == Accumulated(Accumulated(acc, a), b)
    decreases |a|
  {
    hide Combine;
    if a == [] {
      assert a + b == b;
    } else {
      assert (a + b)[1..] == a[1..] + b;
      AccumulatedConcat(Combine(acc, a[0]), a[1..], b);
    }
  }

  /** Changing exactly one element hash always changes the hash of the range. */
  lemma OneChangeShows(acc: bv64, before: seq<bv64>, x: bv64, y: bv64, after: seq<bv64>)
    ensures Accumulated(acc, before + [x] + after) == Accumulated(acc, before + [y] + after) <==> x == y
  {
    hide Combine, Hash64, Unhash64, Xor, Accumulated;
    var m := Accumulated(acc, before);
    OneElement(acc, before, x, after);
    OneElement(acc, before, y, after);
    CombineInjective(m, x);
    CombineInjective(m, y);
    AccumulatedInjective(Combine(m, x), Combine(m, y), after);
  }

  lemma OneElement(acc: bv64, before: seq<bv64>, x: bv64, after: seq<bv64>)
    ensures Accumulated(acc, before + [x] + after) == Accumulated(Combine(Accumulated(acc, before), x), after)
  {
    hide Combine;
    assert before + [x] + after == before + ([x] + after);
    AccumulatedConcat(acc, before, [x] + after);
    assert ([x] + after)[1..] == after;
  }
}
