/** The bytes themselves: how sizes and compound values look on the wire, written out. */
module SaveFormat {
  import opened SaveLoad

  /** The value of four bytes, lowest first. */
  function Short(b: seq<nat>): nat
    requires |b| == 4
  {
    b[0] + 0x100 * b[1] + 0x1_0000 * b[2] + 0x100_0000 * b[3]
  }

  /** The value of eight. */
  function Long(b: seq<nat>): nat
    requires |b| == 8
  {
    b[0] + 0x100 * b[1] + 0x1_0000 * b[2] + 0x100_0000 * b[3] + 0x1_0000_0000 * b[4]
      + 0x100_0000_0000 * b[5] + 0x1_0000_0000_0000 * b[6] + 0x100_0000_0000_0000 * b[7]
  }

  lemma ShortIs(b: seq<Byte>)
    requires |b| == 4
    ensures FromLittleEndian(b) == Short(b)
    ensures FromLittleEndian(b) == 0xffff_ffff <==> b == [255, 255, 255, 255]
  {
    var b1, b2, b3 := b[1..], b[2..], b[3..];
    assert b1[1..] == b2 && b2[1..] == b3 && b3[1..] == [];
    assert b1[0] == b[1] && b2[0] == b[2] && b3[0] == b[3];
    assert FromLittleEndian(b3) == b[3];
    assert FromLittleEndian(b2) == b[2] + 256 * FromLittleEndian(b3);
    assert FromLittleEndian(b1) == b[1] + 256 * FromLittleEndian(b2);
  }

  lemma LongIs(b: seq<Byte>)
    requires |b| == 8
    ensures FromLittleEndian(b) == Long(b)
  {
    var b1, b2, b3, high := b[1..], b[2..], b[3..], b[4..];
    ShortIs(high);
    assert b1[1..] == b2 && b2[1..] == b3 && b3[1..] == high;
    assert FromLittleEndian(b3) == b[3] + 256 * FromLittleEndian(high);
    assert FromLittleEndian(b2) == b[2] + 256 * FromLittleEndian(b3);
    assert FromLittleEndian(b1) == b[1] + 256 * FromLittleEndian(b2);
  }

  /** What loading a size makes of any bytes: four bytes are the size, lowest first, unless all four are
      255, when the size is in the eight that follow. */
  lemma SizeRead(b: seq<Byte>)
    ensures LoadSize(b) ==
            if |b| < 4 then Fail(EndOfInput)
            else if b[..4] != [255, 255, 255, 255]
            then Done(Short(b[..4]), b[4..])
            else if |b| < 12 then Fail(EndOfInput)
            else Done(Long(b[4..12]), b[12..])
  {
    if |b| >= 4 {
      ShortIs(b[..4]);
      if |b| >= 12 {
        assert b[4..][..8] == b[4..12] && b[4..][8..] == b[12..];
        LongIs(b[4..12]);
      }
    }
  }

  /** What saving a size writes: four bytes exactly up to 0xfffffffe, twelve from there on. */
  lemma SizeWritten(n: nat)
    requires n < 0x1_0000_0000_0000_0000
    ensures n < 0xffff_ffff ==>
              SaveSize(n) == [n % 0x100, n / 0x100 % 0x100, n / 0x1_0000 % 0x100, n / 0x100_0000]
    ensures n >= 0xffff_ffff ==>
              && SaveSize(n)[..4] == [255, 255, 255, 255] && |SaveSize(n)| == 12
              && Long(SaveSize(n)[4..]) == n
    ensures |SaveSize(n)| == if n < 0xffff_ffff then 4 else 12
  {
    FourBytes(n);
    if n >= 0xffff_ffff {
      assert SaveSize(n)[..4] == LittleEndian(0xffff_ffff, 4) && SaveSize(n)[4..] == LittleEndian(n, 8);
      FourBytes(0xffff_ffff);
      Powers();
      LittleEndianBack(n, 8);
      LongIs(LittleEndian(n, 8));
    }
  }

  lemma FourBytes(n: nat)
    ensures LittleEndian(n, 4) == [n % 0x100, n / 0x100 % 0x100, n / 0x1_0000 % 0x100, n / 0x100_0000 % 0x100]
  {
    assert LittleEndian(n / 256 / 256 / 256, 1) == [n / 256 / 256 / 256 % 256];
    assert LittleEndian(n / 256 / 256, 2) == [n / 256 / 256 % 256, n / 256 / 256 / 256 % 256];
    assert LittleEndian(n / 256, 3) == [n / 256 % 256, n / 256 / 256 % 256, n / 256 / 256 / 256 % 256];
  }

  /** A pair writes its first part first; a tuple writes its last field first. */
  lemma Compounds(x: seq<Byte>, y: seq<Byte>, z: seq<Byte>)
    ensures Saves(Two(Bytes(x), Bytes(y)), PairOf(Pod(|x|), Pod(|y|)), x + y)
    ensures Saves(List([Bytes(x), Bytes(y), Bytes(z)]), Tuple([Pod(|x|), Pod(|y|), Pod(|z|)]), z + y + x)
  {
    PodIs(x);
    PodIs(y);
    PodIs(z);
    hide HasType, Save;
    var t, vs := Tuple([Pod(|x|), Pod(|y|), Pod(|z|)]), [Bytes(x), Bytes(y), Bytes(z)];
    FieldsFrom(vs, t, 0, []);
    FieldsFrom(vs, t, 1, x);
    FieldsFrom(vs, t, 2, y + x);
    assert x + [] == x && z + (y + x) == z + y + x;
    PairIs(x, y);
    TupleIs(vs, t);
  }

  lemma PodIs(x: seq<Byte>)
    ensures Saves(Bytes(x), Pod(|x|), x)
  {
  }

  lemma PairIs(x: seq<Byte>, y: seq<Byte>)
    ensures Saves(Two(Bytes(x), Bytes(y)), PairOf(Pod(|x|), Pod(|y|)), x + y)
  {
    PodIs(x);
    PodIs(y);
  }

  lemma TupleIs(vs: seq<Value>, t: Type)
    requires t.Tuple? && |vs| == |t.fields| && FieldsHaveType(vs, t, |vs|)
    ensures Saves(List(vs), t, SaveFields(vs, t, |vs|))
  {
  }

  /** One field more, in front. */
  lemma FieldsFrom(vs: seq<Value>, t: Type, k: nat, b: seq<Byte>)
    requires t.Tuple? && k < |vs| == |t.fields| && HasType(vs[k], t.fields[k])
    requires k > 0 ==> FieldsHaveType(vs, t, k) && SaveFields(vs, t, k) == b
    requires k == 0 ==> b == []
    ensures FieldsHaveType(vs, t, k + 1) && SaveFields(vs, t, k + 1) == Save(vs[k], t.fields[k]) + b
  {
    hide HasType, Save;
    if k == 0 {
      assert FieldsHaveType(vs, t, 0);
      assert SaveFields(vs, t, 0) == [];
    }
  }

  /** An optional writes one byte, 0 or 1, and a variant the index of its alternative, in front of the
      value. */
  lemma Tags(x: seq<Byte>, alts: seq<Type>, i: nat)
    requires i < |alts| < 256 && alts[i] == Pod(|x|)
    ensures Saves(None, Optional(Pod(|x|)), [0])
    ensures Saves(Some(Bytes(x)), Optional(Pod(|x|)), [1] + x)
    ensures Saves(Alternative(i, Bytes(x)), Variant(alts), [i] + x)
  {
  }

  /** Containers write the number of elements in front of the elements, in order; a map writes the key
      of an entry in front of its value. */
  lemma Containers(x: seq<Byte>, y: seq<Byte>)
    requires |x| == |y|
    ensures Saves(List([Bytes(x), Bytes(y)]), Vector(Pod(|x|)), [2, 0, 0, 0] + x + y)
    ensures x != y ==> Saves(List([Bytes(x), Bytes(y)]), SetOf(Pod(|x|)), [2, 0, 0, 0] + x + y)
    ensures Saves(List([Two(Bytes(x), Bytes(y))]), MapOf(PairOf(Pod(|x|), Pod(|x|))), [1, 0, 0, 0] + x + y)
  {
    hide SaveSize;
    SizeWritten(2);
    SizeWritten(1);
    TwoItems(x, y);
    OneEntry(x, y);
    assert [2, 0, 0, 0] + (x + y) == [2, 0, 0, 0] + x + y;
    assert [1, 0, 0, 0] + (x + y) == [1, 0, 0, 0] + x + y;
  }

  lemma TwoItems(x: seq<Byte>, y: seq<Byte>)
    requires |x| == |y|
    ensures var vs, t := [Bytes(x), Bytes(y)], Pod(|x|);
            AllHaveType(vs, t) && SaveAll(vs, t) == x + y
  {
    var t, last := Pod(|x|), [Bytes(y)];
    var vs := [Bytes(x), Bytes(y)];
    assert vs[1..] == last && last[1..] == [];
    assert AllHaveType([], t) && SaveAll([], t) == [];
    assert HasType(Bytes(y), t) && Save(Bytes(y), t) == y;
    assert AllHaveType(last, t);
    assert SaveAll(last, t) == y + [] == y;
    assert HasType(Bytes(x), t) && Save(Bytes(x), t) == x;
  }

  lemma OneEntry(x: seq<Byte>, y: seq<Byte>)
    requires |x| == |y|
    ensures var e, t := Two(Bytes(x), Bytes(y)), PairOf(Pod(|x|), Pod(|x|));
            AllHaveType([e], t) && SaveAll([e], t) == x + y
  {
    var e, t := Two(Bytes(x), Bytes(y)), PairOf(Pod(|x|), Pod(|x|));
    assert HasType(Bytes(x), Pod(|x|)) && HasType(Bytes(y), Pod(|x|));
    assert HasType(e, t) && Save(e, t) == x + y;
    assert [e][1..] == [];
    assert AllHaveType([], t) && SaveAll([], t) == [];
    assert SaveAll([e], t) == x + y + [];
  }

  predicate Saves(v: Value, t: Type, b: seq<Byte>) {
    HasType(v, t) && Save(v, t) == b
  }
}
