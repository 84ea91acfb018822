// The page walk on plain bytes: what one iteration of process_rb_page does (kernel/src/log/packet_filter.c:202-245),
// for each record header, in numbers alone.  A record begins with the little-endian word type + 32 * delta; types 1
// to 28 are data of that many words, 0 is data with a length word, 29 padding, 30 a time extension, 31 a time stamp.
module PageBytes {
  import opened Bits
  import opened RingBuffer
  import opened PacketLog

  // The little-endian word at a position is w.
  ghost predicate WordAt(mem: Memory, at: nat, w: nat) {
    mem(at) + 256 * mem(at + 1) + 65536 * mem(at + 2) + 16777216 * mem(at + 3) == w
  }

  ghost predicate HalfAt(mem: Memory, at: nat, h: nat) {
    mem(at) + 256 * mem(at + 1) == h
  }

  // struct pkt_filter_event, packed.
  ghost predicate EntryBytesAt(mem: Memory, at: nat, e: Entry) {
    && WordAt(mem, at, e.sourceIp) && WordAt(mem, at + 4, e.destIp)
    && HalfAt(mem, at + 8, e.sourcePort) && HalfAt(mem, at + 10, e.destPort)
    && mem(at + 12) == e.protocol && mem(at + 13) == e.ttl && mem(at + 14) == e.action
  }

  lemma EntryIsRead(mem: Memory, at: nat, e: Entry)
    ensures EntryAt(mem, at) == e <==> EntryBytesAt(mem, at, e)
  {}

  lemma HeaderIsRead(mem: Memory, at: nat, kind: nat, delta: nat)
    requires WordAt(mem, at, kind + 32 * delta) && kind < 32
    ensures delta < 134217728
    ensures EventAt(mem, at).typeLen == kind && EventAt(mem, at).timeDelta == delta
    ensures WordAt(mem, at + 4, EventAt(mem, at).array0)
  {
    hide EventAt, LoadWord;
    WordIsRead(mem, at);
    WordIsRead(mem, at + 4);
    EventParts(mem, at);
    Split(kind, delta);
  }

  lemma WordIsRead(mem: Memory, at: nat)
    ensures WordAt(mem, at, LoadWord(mem, at))
  {}

  lemma EventParts(mem: Memory, at: nat)
    ensures var e := EventAt(mem, at);
            e.typeLen == LoadWord(mem, at) % 32 && e.timeDelta == LoadWord(mem, at) / 32
            && e.array0 == LoadWord(mem, at + 4)
  {}

  lemma Split(kind: nat, delta: nat)
    requires kind < 32
    ensures (kind + 32 * delta) % 32 == kind && (kind + 32 * delta) / 32 == delta
  {}

  // Type 30: the 59-bit amount w * 2^27 + delta is added to the clock.
  lemma TimeExtendStep(mem: Memory, c: Cursor, delta: nat, w: nat)
    requires WordAt(mem, c.pos, 30 + 32 * delta) && WordAt(mem, c.pos + 4, w)
    ensures Step(mem, c) ==
            Cursor(c.pos + 8, (c.ts + 134217728 * w + delta) % 18446744073709551616, c.out)
  {
    hide EventAt;
    HeaderIsRead(mem, c.pos, 30, delta);
  }

  // Type 31: the clock becomes the stamp w * 2^27 + delta, with the five top bits of the clock put in front if one
  // of them is set, and 2^59 more if that is behind the clock.
  lemma TimeStampStep(mem: Memory, c: Cursor, delta: nat, w: nat)
    requires WordAt(mem, c.pos, 31 + 32 * delta) && WordAt(mem, c.pos + 4, w)
    ensures var stamp := 134217728 * w + delta;
            var high := (c.ts / 576460752303423488) * 576460752303423488;
            && Step(mem, c).pos == c.pos + 8 && Step(mem, c).out == c.out
            && Step(mem, c).ts ==
               if high == 0 then stamp
               else if stamp + high < c.ts then (stamp + high + 576460752303423488) % 18446744073709551616
               else stamp + high
  {
    hide EventAt, RbFixAbsTs;
    HeaderIsRead(mem, c.pos, 31, delta);
    FixAbsTsMeaning(134217728 * w + delta, c.ts);
  }

  // Type 29: padding advances the clock; the next record is found by the length word, or, if the delta is zero,
  // nowhere.
  lemma PaddingStep(mem: Memory, c: Cursor, delta: nat, w: nat)
    requires WordAt(mem, c.pos, 29 + 32 * delta) && WordAt(mem, c.pos + 4, w)
    ensures Step(mem, c) ==
            Cursor(c.pos + if delta == 0 then 4294967295 else (w + 4) % 4294967296,
                   (c.ts + delta) % 18446744073709551616, c.out)
  {
    hide EventAt;
    HeaderIsRead(mem, c.pos, 29, delta);
  }

  // Types 1 to 28: a data record of that many words behind the header word.
  lemma ShortDataStep(mem: Memory, c: Cursor, words: nat, delta: nat, e: Entry)
    requires 1 <= words <= 28 && WordAt(mem, c.pos, words + 32 * delta) && EntryBytesAt(mem, c.pos + 4, e)
    ensures var ts := (c.ts + delta) % 18446744073709551616;
            Step(mem, c) == Cursor(c.pos + 4 * words + 4, ts, c.out + [Record(ts, e)])
  {
    hide EventAt, EntryAt;
    HeaderIsRead(mem, c.pos, words, delta);
    EntryIsRead(mem, c.pos + 4, e);
  }

  // Type 0: a data record whose length is in the first array word.
  lemma LongDataStep(mem: Memory, c: Cursor, delta: nat, w: nat, e: Entry)
    requires WordAt(mem, c.pos, 32 * delta) && WordAt(mem, c.pos + 4, w) && EntryBytesAt(mem, c.pos + 8, e)
    ensures var ts := (c.ts + delta) % 18446744073709551616;
            Step(mem, c) == Cursor(c.pos + (w + 4) % 4294967296, ts, c.out + [Record(ts, e)])
  {
    hide EventAt, EntryAt;
    HeaderIsRead(mem, c.pos, 0, delta);
    EntryIsRead(mem, c.pos + 8, e);
  }
}
