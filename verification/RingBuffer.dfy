// Record sizes and clock arithmetic of ring-buffer pages (kernel/src/util/ring_buffer.c), with the layout of
// linux/ring_buffer.h: a 32-bit header of 5 bits type_len and 27 bits time_delta, then 32-bit array words.
module RingBuffer {
  import opened Bits

  type Word64 = x: int | 0 <= x < 0x1_0000_0000_0000_0000
  type TypeLen = x: int | 0 <= x < 32
  type Delta = x: int | 0 <= x < DELTA_LIMIT
  type Stamp = x: int | 0 <= x < STAMP_LIMIT

  const DELTA_LIMIT: int := 0x800_0000                // 2^27
  const STAMP_LIMIT: int := 0x800_0000_0000_0000      // 2^59
  const CLOCK_LIMIT: int := 0x1_0000_0000_0000_0000   // 2^64
  const WORD_LIMIT: int := 0x1_0000_0000

  const TYPE_DATA_MAX: TypeLen := 28
  const TYPE_PADDING: TypeLen := 29
  const TYPE_TIME_EXTEND: TypeLen := 30
  const TYPE_TIME_STAMP: TypeLen := 31

  const RB_ALIGNMENT: int := 4
  const RB_EVNT_HDR_SIZE: int := 4
  const TS_MSB: Word64 := 0xf800_0000_0000_0000

  // struct ring_buffer_event: the header and the first array word
  datatype Event = Event(typeLen: TypeLen, timeDelta: Delta, array0: Word)

  predicate RbNullEvent(e: Event) {
    e.typeLen == TYPE_PADDING && e.timeDelta == 0
  }

  function RbEventTimeStamp(e: Event): Stamp {
    e.array0 * DELTA_LIMIT + e.timeDelta
  }

  function RbEventDataLength(e: Event): Word {
    var length := if e.typeLen != 0 then e.typeLen * RB_ALIGNMENT else e.array0;
    (length + RB_EVNT_HDR_SIZE) % WORD_LIMIT
  }

  // The unsigned length of a record; (unsigned)-1 for null padding.
  function RbEventLength(e: Event): Word {
    if e.typeLen == TYPE_PADDING then
      if RbNullEvent(e) then WORD_LIMIT - 1
      else (e.array0 + RB_EVNT_HDR_SIZE) % WORD_LIMIT
    else if e.typeLen == TYPE_TIME_EXTEND || e.typeLen == TYPE_TIME_STAMP then 8
    else RbEventDataLength(e)
  }

  // The length word of a long data record or of padding wraps when the header is added.
  predicate WrapsHeader(e: Event) {
    e.array0 == WORD_LIMIT - 4 && (e.typeLen == 0 || (e.typeLen == TYPE_PADDING && e.timeDelta != 0))
  }

  // Those are exactly the records of length zero, on which the page walk makes no progress.
  lemma ZeroLength(e: Event)
    ensures RbEventLength(e) == 0 <==> WrapsHeader(e)
  {}

  // x | y
  function Or(x: nat, y: nat): nat {
    if x == 0 then y else 2 * Or(x / 2, y / 2) + (if x % 2 == 1 || y % 2 == 1 then 1 else 0)
  }

  // rb_fix_abs_ts: put the five bits back that an absolute time stamp has no room for.
  function RbFixAbsTs(abs: Word64, save: Word64): nat {
    if And(save, TS_MSB) != 0 then
      var fixed := Or(abs, And(save, TS_MSB));
      if fixed < save then (fixed + STAMP_LIMIT) % CLOCK_LIMIT else fixed
    else abs
  }

  // ---------------------------------------------------------------------------
  // The five bits, arithmetically

  ghost function Scale(z: nat, n: nat): nat {
    if n == 0 then z else 2 * Scale(z, n - 1)
  }

  lemma {:induction false} ScaleAdds(y: nat, z: nat, n: nat)
    ensures Scale(y + z, n) == Scale(y, n) + Scale(z, n)
  {
    if n > 0 {
      ScaleAdds(y, z, n - 1);
    }
  }

  lemma {:induction false} ScaleStamp(z: nat)
    ensures Scale(z, 59) == z * STAMP_LIMIT
  {
    if z == 0 {
      ScaleAdds(0, 0, 59);
    } else {
      ScaleStamp(z - 1);
      ScaleAdds(z - 1, 1, 59);
      StampSize();
    }
  }

  lemma {:induction false} PowerIsScale(n: nat)
    ensures Pow2(n) == Scale(1, n)
  {
    if n > 0 {
      PowerIsScale(n - 1);
    }
  }

  lemma StampSize()
    ensures Scale(1, 59) == STAMP_LIMIT
  {
    assert Scale(1, 10) == 0x400;
    assert Scale(1, 20) == 0x10_0000;
    assert Scale(1, 30) == 0x4000_0000;
    assert Scale(1, 40) == 0x100_0000_0000;
    assert Scale(1, 50) == 0x4_0000_0000_0000;
  }

  lemma StampConstants()
    ensures Pow2(59) == STAMP_LIMIT && Scale(31, 59) == TS_MSB && Pow2(5) == 32
  {
    PowerIsScale(59);
    StampSize();
    ScaleStamp(31);
    assert Pow2(3) == 8;
  }

  lemma {:induction false} AndHigh(x: nat, n: nat)
    ensures And(x, Scale(31, n)) == Scale(And(ShiftRight(x, n), 31), n)
  {
    if n > 0 {
      AndHigh(x / 2, n - 1);
      if x == 0 {
        ShiftRightZero(n);
      }
    }
  }

  lemma {:induction false} ShiftRightZero(n: nat)
    ensures ShiftRight(0, n) == 0 && Scale(0, n) == 0
  {
    if n > 0 {
      ShiftRightZero(n - 1);
    }
  }

  lemma {:induction false} AndOnes(z: nat, n: nat)
    requires z < Pow2(n)
    ensures And(z, Pow2(n) - 1) == z
  {
    if n > 0 && z > 0 {
      var ones := Pow2(n) - 1;
      assert ones / 2 == Pow2(n - 1) - 1 && ones % 2 == 1;
      AndOnes(z / 2, n - 1);
    }
  }

  lemma {:induction false} HighAndLow(x: nat, n: nat)
    ensures Scale(ShiftRight(x, n), n) <= x < Scale(ShiftRight(x, n), n) + Pow2(n)
  {
    if n > 0 {
      HighAndLow(x / 2, n - 1);
    }
  }

  // save_ts & TS_MSB
  lemma HighBits(save: Word64)
    ensures And(save, TS_MSB) == (save / STAMP_LIMIT) * STAMP_LIMIT
  {
    StampConstants();
    var h := ShiftRight(save, 59);
    HighAndLow(save, 59);
    ScaleStamp(h);
    assert h == save / STAMP_LIMIT && h < 32;
    AndOnes(h, 5);
    AndHigh(save, 59);
  }

  lemma {:induction false} OrDisjoint(x: nat, h: nat, n: nat)
    requires x < Pow2(n)
    ensures Or(x, Scale(h, n)) == x + Scale(h, n)
  {
    if n > 0 {
      OrDisjoint(x / 2, h, n - 1);
    }
  }

  // The function without its bit operations.
  lemma FixAbsTsMeaning(abs: Stamp, save: Word64)
    ensures RbFixAbsTs(abs, save) ==
            var high := (save / STAMP_LIMIT) * STAMP_LIMIT;
            if high == 0 then abs
            else if abs + high < save then (abs + high + STAMP_LIMIT) % CLOCK_LIMIT
            else abs + high
  {
    hide And, Or, Scale, Pow2;
    var h := save / STAMP_LIMIT;
    HighBits(save);
    StampConstants();
    ScaleStamp(h);
    OrDisjoint(abs, h, 59);
  }

  // A time less than 2^59 after another is in the same block of 2^59 or in the next one.
  lemma SameOrNextBlock(time: Word64, save: Word64)
    requires save <= time < save + STAMP_LIMIT
    ensures var low, high := time % STAMP_LIMIT, (save / STAMP_LIMIT) * STAMP_LIMIT;
            time == if low + high < save then low + high + STAMP_LIMIT else low + high
  {}

  // An absolute time stamp is 59 bits wide.  A time less than 2^59 later than the previous one is recovered
  // exactly when the previous one has one of the five top bits set or the new one has none.
  lemma FixAbsTsExact(time: Word64, save: Word64)
    requires save <= time < save + STAMP_LIMIT
    ensures RbFixAbsTs(time % STAMP_LIMIT, save) == time <==> save >= STAMP_LIMIT || time < STAMP_LIMIT
  {
    hide RbFixAbsTs;
    FixAbsTsMeaning(time % STAMP_LIMIT, save);
    SameOrNextBlock(time, save);
  }

  // The clock that first crosses 2^59 with an absolute time stamp is set back.
  lemma FixAbsTsLosesTopBits()
    ensures RbFixAbsTs(STAMP_LIMIT % STAMP_LIMIT, STAMP_LIMIT - 1) == 0
  {
    FixAbsTsMeaning(0, STAMP_LIMIT - 1);
  }

  // What the walk stores back in its u64 clock always fits.
  lemma FixAbsTsFits(abs: Stamp, save: Word64)
    ensures 0 <= RbFixAbsTs(abs, save) < CLOCK_LIMIT
  {
    FixAbsTsMeaning(abs, save);
  }
}
