/** The two packed 32-bit words every counted object carries (`ObjData`, `RefData`).

`ObjData` holds, from the low bit up: 20 bits of TObj count, 10 bits of TMObj count, the
"being invalidated" bit and the "invalid" bit.  The source reads the fields with masks; here
the masks are quotients and remainders, and `CountMasks`, `FlagMasks` and `FlagUpdates` show on real 32-bit vectors that
the two readings are the same.
*/
module SafePtrWords {

  const WORD := 0x1_0000_0000
  const OWN_LIMIT := 0x10_0000
  const MULTI_LIMIT := 0x400
  const COUNT_LIMIT := 0x4000_0000
  const BUSY_BIT := 0x4000_0000
  const INVALID_BIT := 0x8000_0000

  /** A `ui32`. */
  type Word = n: int | 0 <= n < 0x1_0000_0000 witness 0

  /** Unsigned 32-bit arithmetic wraps around. */
  function Wrap(n: int): Word {
    n % WORD
  }

  /** `d & 0x000fffff` */
  function OwnField(d: Word): nat {
    d % OWN_LIMIT
  }

  /** `d & 0x3ff00000`, shifted down. */
  function MultiField(d: Word): nat {
    (d / OWN_LIMIT) % MULTI_LIMIT
  }

  /** `d & 0x3fffffff`: both counts at once. */
  function CountField(d: Word): nat {
    d % COUNT_LIMIT
  }

  /** `d & 0x40000000` */
  predicate Busy(d: Word) {
    (d / BUSY_BIT) % 2 == 1
  }

  /** `d & 0x80000000` */
  predicate Invalid(d: Word) {
    d / INVALID_BIT == 1
  }

  /** `d | 0xc0000000` */
  function MarkInvalidating(d: Word): Word {
    CountField(d) + BUSY_BIT + INVALID_BIT
  }

  /** `d & ~0x40000000` */
  function ClearBusy(d: Word): Word {
    if Busy(d) then d - BUSY_BIT else d
  }

  function Bit(b: bool): nat {
    if b then 1 else 0
  }

  /** What `ObjData` should be, given what it stands for. */
  function Pack(own: nat, multi: nat, busy: bool, invalid: bool): nat {
    own + multi * OWN_LIMIT + Bit(busy) * BUSY_BIT + Bit(invalid) * INVALID_BIT
  }

  /** Within the field widths, packing loses nothing and the fields do not disturb each other. */
  lemma Unpack(own: nat, multi: nat, busy: bool, invalid: bool)
    requires own < OWN_LIMIT && multi < MULTI_LIMIT
    ensures var d := Pack(own, multi, busy, invalid);
            && d < WORD
            && OwnField(d) == own
            && MultiField(d) == multi
            && CountField(d) == own + multi * OWN_LIMIT
            && (CountField(d) == 0 <==> own == 0 && multi == 0)
            && Busy(d) == busy
            && Invalid(d) == invalid
            && MarkInvalidating(d) == Pack(own, multi, true, true)
            && ClearBusy(d) == Pack(own, multi, false, invalid)
  {
    var c := own + multi * OWN_LIMIT;
    var d := Pack(own, multi, busy, invalid);
    assert c < COUNT_LIMIT;
    assert d == c + (Bit(busy) + 2 * Bit(invalid)) * COUNT_LIMIT;
    assert d / COUNT_LIMIT == Bit(busy) + 2 * Bit(invalid);
    assert d / OWN_LIMIT == multi + (Bit(busy) + 2 * Bit(invalid)) * MULTI_LIMIT;
  }

  /** One owner more than the field holds: the TObj count spills into the TMObj count. Adding an
      owner keeps both counts readable exactly when the new count still fits its field. */
  lemma AddOwnerFitsExactly(own: nat, multi: nat, busy: bool, invalid: bool)
    requires own < OWN_LIMIT && multi < MULTI_LIMIT
    ensures var d := Wrap(Pack(own, multi, busy, invalid) + 1);
            OwnField(d) == own + 1 && MultiField(d) == multi <==> own + 1 < OWN_LIMIT
  {
    if own + 1 < OWN_LIMIT {
      hide OwnField, MultiField, Pack, Wrap;
      PackMore(own, multi, busy, invalid);
      Unpack(own + 1, multi, busy, invalid);
    } else {
      hide MultiField;
      var high := multi + 1 + (Bit(busy) + 2 * Bit(invalid)) * MULTI_LIMIT;
      assert Pack(own, multi, busy, invalid) + 1 == high * OWN_LIMIT;
      Spilled(high);
    }
  }

  lemma Spilled(high: nat)
    requires high <= 0x1000
    ensures OwnField(Wrap(high * OWN_LIMIT)) == 0
  {
    assert Wrap(high * OWN_LIMIT) == if high < 0x1000 then high * OWN_LIMIT else 0;
  }

  /** One pointer more, within the field widths. */
  lemma PackMore(own: nat, multi: nat, busy: bool, invalid: bool)
    requires own < OWN_LIMIT && multi < MULTI_LIMIT
    ensures own + 1 < OWN_LIMIT ==>
              Wrap(Pack(own, multi, busy, invalid) + 1) == Pack(own + 1, multi, busy, invalid)
    ensures multi + 1 < MULTI_LIMIT ==>
              Wrap(Pack(own, multi, busy, invalid) + OWN_LIMIT) == Pack(own, multi + 1, busy, invalid)
  {
  }

  /** The masks of the source, on 32-bit vectors, are these quotients and remainders. */
  lemma CountMasks(d: bv32)
    ensures d & 0x000f_ffff == d % 0x10_0000
    ensures (d & 0x3ff0_0000) >> 20 == (d / 0x10_0000) % 0x400
    ensures d & 0x3fff_ffff == d % 0x4000_0000
  {
  }

  lemma FlagMasks(d: bv32)
    ensures d & 0x4000_0000 != 0 <==> (d / 0x4000_0000) % 2 == 1
    ensures d & 0x8000_0000 != 0 <==> d / 0x8000_0000 == 1
  {
  }

  lemma FlagUpdates(d: bv32)
    ensures d | 0xc000_0000 == d % 0x4000_0000 + 0xc000_0000
    ensures d & !0x4000_0000 == d - (d & 0x4000_0000)
  {
  }

  /** The same quotients and remainders are the fields of the model. */
  lemma FieldLayout(d: Word)
    ensures OwnField(d) == d % 0x10_0000
    ensures MultiField(d) == (d / 0x10_0000) % 0x400
    ensures CountField(d) == d % 0x4000_0000
    ensures Busy(d) <==> (d / 0x4000_0000) % 2 == 1
    ensures Invalid(d) <==> d / 0x8000_0000 == 1
    ensures MarkInvalidating(d) == d % 0x4000_0000 + 0xc000_0000
    ensures ClearBusy(d) == d - (if (d / 0x4000_0000) % 2 == 1 then 0x4000_0000 else 0)
  {
  }
}
