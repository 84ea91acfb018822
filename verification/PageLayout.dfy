// How linux/ring_buffer.h lays records out in a page, and the proof that the walk of PacketLog reads back
// exactly what was laid out.
module PageLayout {
  import opened Bits
  import opened RingBuffer
  import opened PacketLog

  const ENTRY_SIZE: nat := 15   // sizeof the packed fields of struct pkt_filter_event

  // What a writer may put into a page.  A data record carries the entry and whatever follows it up to the
  // end of the record.
  datatype Item =
    | Discarded(delta: Delta, body: seq<Byte>)
    | TimeExtend(amount: Stamp)
    | TimeStamp(stamp: Stamp)
    | Short(delta: Delta, entry: Entry, rest: seq<Byte>)
    | Long(delta: Delta, entry: Entry, rest: seq<Byte>)

  // A discarded record has a non-zero delta, a short record is 1 to 28 words long, and the length of a long one
  // fits its word.
  predicate Fits(item: Item) {
    match item
    case Discarded(delta, body) => delta > 0 && |body| + 8 < WORD_LIMIT
    case Short(_, _, rest) => (ENTRY_SIZE + |rest|) % 4 == 0 && ENTRY_SIZE + |rest| <= 28 * 4
    case Long(_, _, rest) => ENTRY_SIZE + |rest| + 8 < WORD_LIMIT
    case _ => true
  }

  function HalfBytes(h: Half): seq<Byte> {
    [h % 0x100, h / 0x100]
  }

  function WordBytes(w: Word): seq<Byte> {
    [w % 0x100, (w / 0x100) % 0x100, (w / 0x1_0000) % 0x100, w / 0x100_0000]
  }

  function EntryBytes(e: Entry): (b: seq<Byte>)
    ensures |b| == ENTRY_SIZE
  {
    WordBytes(e.sourceIp) + WordBytes(e.destIp) + HalfBytes(e.sourcePort) + HalfBytes(e.destPort)
    + [e.protocol, e.ttl, e.action]
  }

  function Header(typeLen: TypeLen, delta: Delta): seq<Byte> {
    WordBytes(typeLen + 32 * delta)
  }

  function Encode(item: Item): seq<Byte>
    requires Fits(item)
  {
    match item
    case Discarded(delta, body) => Header(TYPE_PADDING, delta) + WordBytes(|body| + 4) + body
    case TimeExtend(amount) => Header(TYPE_TIME_EXTEND, amount % DELTA_LIMIT) + WordBytes(amount / DELTA_LIMIT)
    case TimeStamp(stamp) => Header(TYPE_TIME_STAMP, stamp % DELTA_LIMIT) + WordBytes(stamp / DELTA_LIMIT)
    case Short(delta, entry, rest) => Header((ENTRY_SIZE + |rest|) / 4, delta) + EntryBytes(entry) + rest
    case Long(delta, entry, rest) =>
      Header(0, delta) + WordBytes(ENTRY_SIZE + |rest| + 4) + EntryBytes(entry) + rest
  }

  function EncodeAll(items: seq<Item>): seq<Byte>
    requires forall i | 0 <= i < |items| :: Fits(items[i])
  {
    if items == [] then [] else Encode(items[0]) + EncodeAll(items[1..])
  }

  // Null padding: the rest of the page is unused.
  function NullPadding(filler: seq<Byte>): seq<Byte> {
    Header(TYPE_PADDING, 0) + filler
  }

  // ---------------------------------------------------------------------------
  // What the records mean

  function Clock(item: Item, ts: Word64): Word64 {
    match item
    case Discarded(delta, _) => (ts + delta) % CLOCK_LIMIT
    case TimeExtend(amount) => (ts + amount) % CLOCK_LIMIT
    case TimeStamp(stamp) => FixAbsTsFits(stamp, ts); RbFixAbsTs(stamp, ts)
    case Short(delta, _, _) => (ts + delta) % CLOCK_LIMIT
    case Long(delta, _, _) => (ts + delta) % CLOCK_LIMIT
  }

  function Emitted(item: Item, ts: Word64): seq<Record> {
    if item.Short? || item.Long? then [Record(Clock(item, ts), item.entry)] else []
  }

  function ClockAfter(items: seq<Item>, ts: Word64): Word64 {
    if items == [] then ts else ClockAfter(items[1..], Clock(items[0], ts))
  }

  // One record for each data item, in order, each at its absolute time.
  function Message(items: seq<Item>, ts: Word64): seq<Record> {
    if items == [] then [] else Emitted(items[0], ts) + Message(items[1..], Clock(items[0], ts))
  }

  // ---------------------------------------------------------------------------
  // Loads undo stores

  ghost predicate Stored(mem: Memory, at: nat, bytes: seq<Byte>) {
    forall i | 0 <= i < |bytes| :: mem(at + i) == bytes[i]
  }

  lemma StoredSplit(mem: Memory, at: nat, a: seq<Byte>, b: seq<Byte>)
    requires Stored(mem, at, a + b)
    ensures Stored(mem, at, a) && Stored(mem, at + |a|, b)
  {
    forall i | 0 <= i < |a| ensures mem(at + i) == a[i] {
      assert (a + b)[i] == a[i];
    }
    forall i | 0 <= i < |b| ensures mem(at + |a| + i) == b[i] {
      assert (a + b)[|a| + i] == b[i];
    }
  }

  lemma WordStored(mem: Memory, at: nat, w: Word)
    requires Stored(mem, at, WordBytes(w))
    ensures LoadWord(mem, at) == w
  {
    var b := WordBytes(w);
    assert mem(at + 0) == b[0] && mem(at + 1) == b[1] && mem(at + 2) == b[2] && mem(at + 3) == b[3];
    BytesOfWord(w);
  }

  lemma BytesOfWord(w: Word)
    ensures w % 0x100 + 0x100 * ((w / 0x100) % 0x100) + 0x1_0000 * ((w / 0x1_0000) % 0x100)
            + 0x100_0000 * (w / 0x100_0000) == w
  {
    assert w / 0x1_0000 == (w / 0x100) / 0x100 && w / 0x100_0000 == (w / 0x1_0000) / 0x100;
  }

  lemma HalfStored(mem: Memory, at: nat, h: Half)
    requires Stored(mem, at, HalfBytes(h))
    ensures LoadHalf(mem, at) == h
  {
    var b := HalfBytes(h);
    assert mem(at + 0) == b[0] && mem(at + 1) == b[1];
  }

  lemma EntryStored(mem: Memory, at: nat, e: Entry)
    requires Stored(mem, at, EntryBytes(e))
    ensures EntryAt(mem, at) == e
  {
    hide WordBytes, HalfBytes, Stored;
    var a, b, c, d := WordBytes(e.sourceIp), WordBytes(e.destIp), HalfBytes(e.sourcePort), HalfBytes(e.destPort);
    EntrySizes(e);
    StoredSplit(mem, at, a + b + c + d, [e.protocol, e.ttl, e.action]);
    StoredSplit(mem, at, a + b + c, d);
    StoredSplit(mem, at, a + b, c);
    StoredSplit(mem, at, a, b);
    WordStored(mem, at, e.sourceIp);
    WordStored(mem, at + 4, e.destIp);
    HalfStored(mem, at + 8, e.sourcePort);
    HalfStored(mem, at + 10, e.destPort);
    LastStored(mem, at + 12, e.protocol, e.ttl, e.action);
  }

  lemma EntrySizes(e: Entry)
    ensures |WordBytes(e.sourceIp)| == |WordBytes(e.destIp)| == 4
    ensures |HalfBytes(e.sourcePort)| == |HalfBytes(e.destPort)| == 2
  {}

  lemma LastStored(mem: Memory, at: nat, x: Byte, y: Byte, z: Byte)
    requires Stored(mem, at, [x, y, z])
    ensures mem(at) == x && mem(at + 1) == y && mem(at + 2) == z
  {
    assert mem(at + 0) == [x, y, z][0] && mem(at + 1) == [x, y, z][1] && mem(at + 2) == [x, y, z][2];
  }

  lemma HeaderStored(mem: Memory, at: nat, typeLen: TypeLen, delta: Delta)
    requires Stored(mem, at, Header(typeLen, delta))
    ensures EventAt(mem, at).typeLen == typeLen && EventAt(mem, at).timeDelta == delta
  {
    hide Stored, LoadWord, WordBytes;
    WordStored(mem, at, typeLen + 32 * delta);
    HeaderFields(typeLen, delta);
  }

  lemma HeaderFields(typeLen: TypeLen, delta: Delta)
    ensures (typeLen + 32 * delta) % 32 == typeLen && (typeLen + 32 * delta) / 32 == delta
  {}

  lemma HeaderAndWordStored(mem: Memory, at: nat, typeLen: TypeLen, delta: Delta, w: Word, rest: seq<Byte>)
    requires Stored(mem, at, Header(typeLen, delta) + WordBytes(w) + rest)
    ensures EventAt(mem, at) == Event(typeLen, delta, w) && Stored(mem, at + 8, rest)
  {
    hide Stored;
    StoredSplit(mem, at, Header(typeLen, delta) + WordBytes(w), rest);
    StoredSplit(mem, at, Header(typeLen, delta), WordBytes(w));
    HeaderStored(mem, at, typeLen, delta);
    WordStored(mem, at + 4, w);
  }

  // ---------------------------------------------------------------------------
  // One iteration of the walk reads one item

  lemma StepPastDiscarded(mem: Memory, c: Cursor, item: Item)
    requires item.Discarded? && Fits(item) && Stored(mem, c.pos, Encode(item))
    ensures Step(mem, c) == Cursor(c.pos + |Encode(item)|, Clock(item, c.ts), c.out)
    ensures |Encode(item)| > 0
  {
    hide Stored, EventAt;
    HeaderAndWordStored(mem, c.pos, TYPE_PADDING, item.delta, |item.body| + 4, item.body);
  }

  // The event of a time extension or time stamp record; both hold 59 bits, 27 of them in the header.
  lemma TimeRecordStored(mem: Memory, at: nat, typeLen: TypeLen, value: Stamp)
    requires Stored(mem, at, Header(typeLen, value % DELTA_LIMIT) + WordBytes(value / DELTA_LIMIT))
    ensures EventAt(mem, at).typeLen == typeLen && RbEventTimeStamp(EventAt(mem, at)) == value
  {
    hide Stored, EventAt;
    var bytes := Header(typeLen, value % DELTA_LIMIT) + WordBytes(value / DELTA_LIMIT);
    assert bytes + [] == bytes;
    HeaderAndWordStored(mem, at, typeLen, value % DELTA_LIMIT, value / DELTA_LIMIT, []);
  }

  lemma StepPastTime(mem: Memory, c: Cursor, item: Item)
    requires (item.TimeExtend? || item.TimeStamp?) && Stored(mem, c.pos, Encode(item))
    ensures Step(mem, c) == Cursor(c.pos + |Encode(item)|, Clock(item, c.ts), c.out)
    ensures |Encode(item)| > 0
  {
    hide Stored, EventAt, RbFixAbsTs, RbEventTimeStamp, WordBytes;
    match item
    case TimeExtend(amount) =>
      TimeRecordStored(mem, c.pos, TYPE_TIME_EXTEND, amount);
      TimeRecordSize(TYPE_TIME_EXTEND, amount);
    case TimeStamp(stamp) =>
      TimeRecordStored(mem, c.pos, TYPE_TIME_STAMP, stamp);
      TimeRecordSize(TYPE_TIME_STAMP, stamp);
  }

  lemma TimeRecordSize(typeLen: TypeLen, value: Stamp)
    ensures |Header(typeLen, value % DELTA_LIMIT) + WordBytes(value / DELTA_LIMIT)| == 8
  {}

  lemma StepPastShort(mem: Memory, c: Cursor, item: Item)
    requires item.Short? && Fits(item) && Stored(mem, c.pos, Encode(item))
    ensures Step(mem, c) == Cursor(c.pos + |Encode(item)|, Clock(item, c.ts), c.out + Emitted(item, c.ts))
    ensures |Encode(item)| > 0
  {
    hide Stored, EventAt, EntryAt, EntryBytes;
    var typeLen: TypeLen := (ENTRY_SIZE + |item.rest|) / 4;
    StoredSplit(mem, c.pos, Header(typeLen, item.delta) + EntryBytes(item.entry), item.rest);
    StoredSplit(mem, c.pos, Header(typeLen, item.delta), EntryBytes(item.entry));
    HeaderStored(mem, c.pos, typeLen, item.delta);
    EntryStored(mem, c.pos + 4, item.entry);
  }

  lemma StepPastLong(mem: Memory, c: Cursor, item: Item)
    requires item.Long? && Fits(item) && Stored(mem, c.pos, Encode(item))
    ensures Step(mem, c) == Cursor(c.pos + |Encode(item)|, Clock(item, c.ts), c.out + Emitted(item, c.ts))
    ensures |Encode(item)| > 0
  {
    hide Stored, EventAt, EntryAt, EntryBytes;
    var length: Word := ENTRY_SIZE + |item.rest| + 4;
    var data := EntryBytes(item.entry) + item.rest;
    assert Encode(item) == Header(0, item.delta) + WordBytes(length) + data;
    HeaderAndWordStored(mem, c.pos, 0, item.delta, length, data);
    StoredSplit(mem, c.pos + 8, EntryBytes(item.entry), item.rest);
    EntryStored(mem, c.pos + 8, item.entry);
  }

  lemma StepPast(mem: Memory, c: Cursor, item: Item)
    requires Fits(item) && Stored(mem, c.pos, Encode(item))
    ensures Step(mem, c) == Cursor(c.pos + |Encode(item)|, Clock(item, c.ts), c.out + Emitted(item, c.ts))
    ensures |Encode(item)| > 0
  {
    hide Stored, Step, Encode, Clock;
    match item
    case Short(_, _, _) => StepPastShort(mem, c, item);
    case Long(_, _, _) => StepPastLong(mem, c, item);
    case Discarded(_, _) =>
      StepPastDiscarded(mem, c, item);
      assert c.out + [] == c.out;
    case _ =>
      StepPastTime(mem, c, item);
      assert c.out + [] == c.out;
  }

  // Null padding ends the walk: its unsigned length takes the position past any committed byte count.
  lemma StepPastNull(mem: Memory, c: Cursor, filler: seq<Byte>)
    requires Stored(mem, c.pos, NullPadding(filler))
    ensures Step(mem, c) == Cursor(c.pos + (WORD_LIMIT - 1), c.ts, c.out)
  {
    StoredSplit(mem, c.pos, Header(TYPE_PADDING, 0), filler);
    HeaderStored(mem, c.pos, TYPE_PADDING, 0);
  }

  // ---------------------------------------------------------------------------
  // The walk inverts the layout

  lemma NeverStallsFrom(mem: Memory, commit: nat, c: Cursor)
    requires c.pos < commit ==> Step(mem, c).pos > c.pos && NeverStalls(mem, commit, Step(mem, c).pos)
    ensures NeverStalls(mem, commit, c.pos)
  {
    hide EventAt, RbEventLength, WrapsHeader;
    if c.pos < commit {
      ZeroLength(EventAt(mem, c.pos));
    }
  }

  // A page that is tiled by items, for any contents of the memory behind it: the walk terminates, ends at the
  // committed byte count, and its message has one record for each data item, in order, with its absolute time.
  lemma {:induction false} WalkInvertsLayout(mem: Memory, c: Cursor, items: seq<Item>, commit: nat)
    requires forall i | 0 <= i < |items| :: Fits(items[i])
    requires Stored(mem, c.pos, EncodeAll(items)) && commit == c.pos + |EncodeAll(items)|
    ensures NeverStalls(mem, commit, c.pos)
    ensures Walk(mem, commit, c) == Cursor(commit, ClockAfter(items, c.ts), c.out + Message(items, c.ts))
    decreases |items|
  {
    hide Stored, Step, Encode, Clock, NeverStalls, Emitted;
    if items == [] {
      NeverStallsFrom(mem, commit, c);
      assert c.out + [] == c.out;
    } else {
      var first, rest := items[0], items[1..];
      StoredSplit(mem, c.pos, Encode(first), EncodeAll(rest));
      StepPast(mem, c, first);
      WalkInvertsLayout(mem, Step(mem, c), rest, commit);
      NeverStallsFrom(mem, commit, c);
      assert c.out + Message(items, c.ts) == (c.out + Emitted(first, c.ts)) + Message(rest, Clock(first, c.ts));
    }
  }

  // The same for a page whose end is null padding; the committed count is below 2^30, because the two top bits
  // of its word are flags.
  lemma {:induction false} WalkStopsAtNullPadding(mem: Memory, c: Cursor, items: seq<Item>, filler: seq<Byte>,
                                                  commit: nat)
    requires forall i | 0 <= i < |items| :: Fits(items[i])
    requires Stored(mem, c.pos, EncodeAll(items) + NullPadding(filler))
    requires commit == c.pos + |EncodeAll(items) + NullPadding(filler)| && commit < 0x4000_0000
    ensures NeverStalls(mem, commit, c.pos)
    ensures Walk(mem, commit, c).pos >= commit
    ensures Walk(mem, commit, c).out == c.out + Message(items, c.ts)
    ensures Walk(mem, commit, c).ts == ClockAfter(items, c.ts)
    decreases |items|
  {
    hide Stored, Step, Encode, Clock, NeverStalls, Emitted;
    if items == [] {
      assert EncodeAll(items) + NullPadding(filler) == NullPadding(filler);
      StepPastNull(mem, c, filler);
      NeverStallsFrom(mem, commit, Step(mem, c));
      NeverStallsFrom(mem, commit, c);
      assert c.out + [] == c.out;
    } else {
      var first, rest := items[0], items[1..];
      assert EncodeAll(items) + NullPadding(filler) == Encode(first) + (EncodeAll(rest) + NullPadding(filler));
      StoredSplit(mem, c.pos, Encode(first), EncodeAll(rest) + NullPadding(filler));
      StepPast(mem, c, first);
      WalkStopsAtNullPadding(mem, Step(mem, c), rest, filler, commit);
      NeverStallsFrom(mem, commit, c);
      assert c.out + Message(items, c.ts) == (c.out + Emitted(first, c.ts)) + Message(rest, Clock(first, c.ts));
    }
  }

  // ---------------------------------------------------------------------------
  // A writer with a clock

  datatype Kind = ByDelta | ByExtend | ByStamp

  // Something that happens at an absolute time: an entry is logged, its time written in one of three ways, or
  // a record is discarded.
  datatype Tick =
    | Log(kind: Kind, time: Word64, entry: Entry, rest: seq<Byte>)
    | Gap(time: Word64, body: seq<Byte>)

  predicate FillsWords(rest: seq<Byte>) {
    (ENTRY_SIZE + |rest|) % 4 == 0 && ENTRY_SIZE + |rest| + 8 < WORD_LIMIT
  }

  // A data record is short if its size in words fits the header.
  function DataItem(delta: Delta, entry: Entry, rest: seq<Byte>): (item: Item)
    requires FillsWords(rest)
    ensures Fits(item)
  {
    if ENTRY_SIZE + |rest| <= 28 * 4 then Short(delta, entry, rest) else Long(delta, entry, rest)
  }

  function ItemsOf(prev: Word64, tick: Tick): seq<Item>
    requires Writable(prev, tick)
  {
    match tick
    case Gap(time, body) => [Discarded(time - prev, body)]
    case Log(ByDelta, time, entry, rest) => [DataItem(time - prev, entry, rest)]
    case Log(ByExtend, time, entry, rest) => [TimeExtend(time - prev), DataItem(0, entry, rest)]
    case Log(ByStamp, time, entry, rest) => [TimeStamp(time % STAMP_LIMIT), DataItem(0, entry, rest)]
  }

  // The clock does not go back, and the distance fits the way in which it is written.
  predicate Writable(prev: Word64, tick: Tick) {
    && prev <= tick.time
    && match tick
       case Gap(time, body) => 0 < time - prev < DELTA_LIMIT && |body| + 8 < WORD_LIMIT
       case Log(kind, time, entry, rest) =>
         && FillsWords(rest)
         && match kind
            case ByDelta => time - prev < DELTA_LIMIT
            case ByExtend => time - prev < STAMP_LIMIT
            case ByStamp => time - prev < STAMP_LIMIT && (prev >= STAMP_LIMIT || time < STAMP_LIMIT)
  }

  ghost predicate Timeline(prev: Word64, ticks: seq<Tick>)
    decreases |ticks|
  {
    ticks == [] || (Writable(prev, ticks[0]) && Timeline(ticks[0].time, ticks[1..]))
  }

  ghost function PageOf(prev: Word64, ticks: seq<Tick>): (items: seq<Item>)
    requires Timeline(prev, ticks)
    ensures forall i | 0 <= i < |items| :: Fits(items[i])
    decreases |ticks|
  {
    if ticks == [] then [] else ItemsOf(prev, ticks[0]) + PageOf(ticks[0].time, ticks[1..])
  }

  // The log as it happened.
  ghost function Logged(ticks: seq<Tick>): seq<Record> {
    if ticks == [] then []
    else (if ticks[0].Log? then [Record(ticks[0].time, ticks[0].entry)] else []) + Logged(ticks[1..])
  }

  lemma {:induction false} ClockAppend(a: seq<Item>, b: seq<Item>, ts: Word64)
    ensures ClockAfter(a + b, ts) == ClockAfter(b, ClockAfter(a, ts))
    ensures Message(a + b, ts) == Message(a, ts) + Message(b, ClockAfter(a, ts))
  {
    hide Clock, Emitted;
    if a == [] {
      assert a + b == b;
    } else {
      assert (a + b)[1..] == a[1..] + b;
      ClockAppend(a[1..], b, Clock(a[0], ts));
    }
  }

  // Items that lead the clock from one time to another and emit these records on the way.
  predicate Decodes(items: seq<Item>, prev: Word64, time: Word64, out: seq<Record>) {
    ClockAfter(items, prev) == time && Message(items, prev) == out
  }

  lemma DecodesOne(x: Item, prev: Word64, time: Word64)
    requires Clock(x, prev) == time
    ensures Decodes([x], prev, time, Emitted(x, prev))
  {
    hide Clock, Emitted;
    OneItem(x, prev);
  }

  lemma DecodesTwo(x: Item, y: Item, prev: Word64, time: Word64)
    requires Clock(x, prev) == time && Clock(y, time) == time && Emitted(x, prev) == []
    ensures Decodes([x, y], prev, time, Emitted(y, time))
  {
    hide Clock, Emitted;
    TwoItems(x, y, prev);
    assert [] + Emitted(y, time) == Emitted(y, time);
  }

  // Each way of writing a time is undone by the reader's clock.
  lemma TickDecoded(prev: Word64, tick: Tick)
    requires Writable(prev, tick)
    ensures Decodes(ItemsOf(prev, tick), prev, tick.time,
                    if tick.Log? then [Record(tick.time, tick.entry)] else [])
  {
    hide RbFixAbsTs, Fits, DataItem, Decodes;
    match tick
    case Gap(time, body) => DecodesOne(Discarded(time - prev, body), prev, time);
    case Log(ByDelta, time, entry, rest) =>
      DataMeans(time - prev, entry, rest, prev);
      DecodesOne(DataItem(time - prev, entry, rest), prev, time);
    case Log(ByExtend, time, entry, rest) =>
      DataMeans(0, entry, rest, time);
      DecodesTwo(TimeExtend(time - prev), DataItem(0, entry, rest), prev, time);
    case Log(ByStamp, time, entry, rest) =>
      DataMeans(0, entry, rest, time);
      FixAbsTsExact(time, prev);
      DecodesTwo(TimeStamp(time % STAMP_LIMIT), DataItem(0, entry, rest), prev, time);
  }

  lemma DataMeans(delta: Delta, entry: Entry, rest: seq<Byte>, ts: Word64)
    requires FillsWords(rest)
    ensures var item := DataItem(delta, entry, rest);
            && Clock(item, ts) == (ts + delta) % CLOCK_LIMIT
            && Emitted(item, ts) == [Record((ts + delta) % CLOCK_LIMIT, entry)]
  {}

  lemma OneItem(x: Item, ts: Word64)
    ensures ClockAfter([x], ts) == Clock(x, ts) && Message([x], ts) == Emitted(x, ts)
  {}

  lemma TwoItems(x: Item, y: Item, ts: Word64)
    ensures ClockAfter([x, y], ts) == Clock(y, Clock(x, ts))
    ensures Message([x, y], ts) == Emitted(x, ts) + Emitted(y, Clock(x, ts))
  {
    assert [x, y][1..] == [y];
    OneItem(y, Clock(x, ts));
  }

  lemma {:induction false} PageDecoded(prev: Word64, ticks: seq<Tick>)
    requires Timeline(prev, ticks)
    ensures Message(PageOf(prev, ticks), prev) == Logged(ticks)
    decreases |ticks|
  {
    hide Writable, ItemsOf, Message, ClockAfter;
    if ticks == [] {
      EmptyMessage(prev);
    } else {
      var time := ticks[0].time;
      TickDecoded(prev, ticks[0]);
      PageDecoded(time, ticks[1..]);
      ClockAppend(ItemsOf(prev, ticks[0]), PageOf(time, ticks[1..]), prev);
    }
  }

  lemma EmptyMessage(ts: Word64)
    ensures Message([], ts) == []
  {}

  // Whatever follows the page in memory, what was logged is what process_rb_page puts into its message: every
  // entry, in order, with the absolute time at which it was logged.
  lemma LoggedIsReadBack(mem: Memory, commit: nat, timeStamp: Word64, ticks: seq<Tick>)
    requires Timeline(timeStamp, ticks)
    requires Stored(mem, 0, EncodeAll(PageOf(timeStamp, ticks))) && commit == |EncodeAll(PageOf(timeStamp, ticks))|
    ensures NeverStalls(mem, commit, 0)
    ensures Walk(mem, commit, Cursor(0, timeStamp, [])).out == Logged(ticks)
    ensures Walk(mem, commit, Cursor(0, timeStamp, [])).pos == commit
  {
    hide Stored, EncodeAll, NeverStalls, Walk;
    WalkInvertsLayout(mem, Cursor(0, timeStamp, []), PageOf(timeStamp, ticks), commit);
    PageDecoded(timeStamp, ticks);
    assert [] + Logged(ticks) == Logged(ticks);
  }

  // ---------------------------------------------------------------------------
  // Times that never decrease

  // What it takes for the clock not to go back at an item: no overflow, and an absolute stamp that is not behind
  // the clock, where five top bits that can still be raised make up for being behind.
  predicate Forward(item: Item, ts: Word64) {
    match item
    case TimeExtend(amount) => ts + amount < CLOCK_LIMIT
    case TimeStamp(stamp) =>
      if ts < STAMP_LIMIT then ts <= stamp else ts < 31 * STAMP_LIMIT || ts <= 31 * STAMP_LIMIT + stamp
    case Discarded(delta, _) => ts + delta < CLOCK_LIMIT
    case Short(delta, _, _) => ts + delta < CLOCK_LIMIT
    case Long(delta, _, _) => ts + delta < CLOCK_LIMIT
  }

  lemma ForwardExactly(item: Item, ts: Word64)
    ensures ts <= Clock(item, ts) <==> Forward(item, ts)
  {
    hide RbFixAbsTs;
    if item.TimeStamp? {
      FixAbsTsMeaning(item.stamp, ts);
    }
  }

  predicate AllForward(items: seq<Item>, ts: Word64) {
    items == [] || (Forward(items[0], ts) && AllForward(items[1..], Clock(items[0], ts)))
  }

  // Along the records of a page, of whatever kinds, the clock never goes back exactly if each of them is forward.
  lemma {:induction false} ClockNeverGoesBack(items: seq<Item>, ts: Word64)
    ensures AllForward(items, ts) <==>
            forall i | 0 <= i < |items| :: ClockAfter(items[..i], ts) <= ClockAfter(items[..i + 1], ts)
  {
    hide Clock, Forward;
    if items != [] {
      var first, rest := items[0], items[1..];
      var next := Clock(first, ts);
      ForwardExactly(first, ts);
      ClockNeverGoesBack(rest, next);
      forall i | 0 < i <= |items| ensures ClockAfter(items[..i], ts) == ClockAfter(rest[..i - 1], next) {
        assert items[..i][1..] == rest[..i - 1];
      }
      assert items[..0] == [] && rest[..0] == [];
      assert AllForward(items, ts) <==> ts <= next && AllForward(rest, next);
      if forall i | 0 <= i < |items| :: ClockAfter(items[..i], ts) <= ClockAfter(items[..i + 1], ts) {
        assert ClockAfter(items[..0], ts) <= ClockAfter(items[..1], ts);
        forall i | 0 <= i < |rest| ensures ClockAfter(rest[..i], next) <= ClockAfter(rest[..i + 1], next) {
          assert ClockAfter(items[..i + 1], ts) <= ClockAfter(items[..i + 2], ts);
        }
      }
    }
  }

  ghost predicate Rising(out: seq<Record>, low: int, high: int) {
    && (forall i | 0 <= i < |out| :: low <= out[i].ts <= high)
    && (forall i, j | 0 <= i <= j < |out| :: out[i].ts <= out[j].ts)
  }

  lemma RisingAppend(a: seq<Record>, b: seq<Record>, low: int, mid: int, high: int)
    requires Rising(a, low, mid) && Rising(b, mid, high) && low <= mid <= high
    ensures Rising(a + b, low, high)
  {}

  lemma {:induction false} MessageRises(items: seq<Item>, ts: Word64)
    requires AllForward(items, ts)
    ensures ts <= ClockAfter(items, ts) && Rising(Message(items, ts), ts, ClockAfter(items, ts))
  {
    hide Clock, Forward;
    if items != [] {
      var next := Clock(items[0], ts);
      ForwardExactly(items[0], ts);
      MessageRises(items[1..], next);
      RisingAppend(Emitted(items[0], ts), Message(items[1..], next), ts, next, ClockAfter(items, ts));
    }
  }

  // So the times of the records that the walk emits never decrease, on any page of forward records.
  lemma PageTimesNeverDecrease(mem: Memory, commit: nat, timeStamp: Word64, items: seq<Item>)
    requires forall i | 0 <= i < |items| :: Fits(items[i])
    requires Stored(mem, 0, EncodeAll(items)) && commit == |EncodeAll(items)|
    requires AllForward(items, timeStamp)
    ensures NeverStalls(mem, commit, 0)
    ensures var end := Walk(mem, commit, Cursor(0, timeStamp, []));
            Rising(end.out, timeStamp, end.ts)
  {
    hide Stored, EncodeAll, NeverStalls, Walk, AllForward, Rising;
    WalkInvertsLayout(mem, Cursor(0, timeStamp, []), items, commit);
    MessageRises(items, timeStamp);
    assert [] + Message(items, timeStamp) == Message(items, timeStamp);
  }

  lemma {:induction false} ForwardAppend(a: seq<Item>, b: seq<Item>, ts: Word64)
    ensures AllForward(a + b, ts) <==> AllForward(a, ts) && AllForward(b, ClockAfter(a, ts))
  {
    hide Clock, Forward;
    if a == [] {
      assert a + b == b;
    } else {
      assert (a + b)[1..] == a[1..] + b;
      ForwardAppend(a[1..], b, Clock(a[0], ts));
    }
  }

  lemma ForwardOne(x: Item, ts: Word64)
    ensures AllForward([x], ts) <==> Forward(x, ts)
  {
    hide Clock, Forward;
    assert [x][1..] == [];
  }

  lemma ForwardPair(x: Item, y: Item, ts: Word64)
    ensures AllForward([x, y], ts) <==> Forward(x, ts) && Forward(y, Clock(x, ts))
  {
    hide Clock, Forward;
    assert [x, y][1..] == [y];
    ForwardOne(y, Clock(x, ts));
  }

  lemma TickIsForward(prev: Word64, tick: Tick)
    requires Writable(prev, tick)
    ensures AllForward(ItemsOf(prev, tick), prev)
  {
    hide RbFixAbsTs, AllForward;
    match tick
    case Gap(time, body) =>
      var gap := Discarded(time - prev, body);
      ForwardOne(gap, prev);
    case Log(kind, time, entry, rest) =>
      var data := DataItem(if kind.ByDelta? then time - prev else 0, entry, rest);
      match kind
      case ByDelta => ForwardOne(data, prev);
      case ByExtend => ForwardPair(TimeExtend(time - prev), data, prev);
      case ByStamp =>
        var stamp := TimeStamp(time % STAMP_LIMIT);
        FixAbsTsExact(time, prev);
        ForwardExactly(stamp, prev);
        ForwardPair(stamp, data, prev);
  }

  // The pages of a writer whose clock does not go back are such pages.
  lemma {:induction false} TimelineIsForward(prev: Word64, ticks: seq<Tick>)
    requires Timeline(prev, ticks)
    ensures AllForward(PageOf(prev, ticks), prev)
    decreases |ticks|
  {
    hide Writable, ItemsOf, AllForward, ClockAfter;
    if ticks == [] {
      NoItems(prev);
    } else {
      TickIsForward(prev, ticks[0]);
      TickDecoded(prev, ticks[0]);
      TimelineIsForward(ticks[0].time, ticks[1..]);
      ForwardAppend(ItemsOf(prev, ticks[0]), PageOf(ticks[0].time, ticks[1..]), prev);
    }
  }

  lemma NoItems(ts: Word64)
    ensures AllForward([], ts)
  {}
}
