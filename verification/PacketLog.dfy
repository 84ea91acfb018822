// The walk over a ring-buffer page (process_rb_page in kernel/src/log/packet_filter.c).  The page is given as
// the bytes that follow its start in memory, whatever they are; words are little-endian.  Every attribute put
// succeeds, so a data record becomes one nested attribute of the message.
module PacketLog {
  import opened Bits
  import opened RingBuffer

  type Memory = nat -> Byte
  type Half = x: int | 0 <= x < 0x1_0000

  // struct pkt_filter_event, fields as stored
  datatype Entry = Entry(sourceIp: Word, destIp: Word, sourcePort: Half, destPort: Half,
                         protocol: Byte, ttl: Byte, action: Byte)

  // One LFW_NLA_PKT_FILTER_LOG attribute
  datatype Record = Record(ts: Word64, entry: Entry)

  // ---------------------------------------------------------------------------
  // Reading memory

  function LoadHalf(mem: Memory, at: nat): Half {
    mem(at) + 0x100 * mem(at + 1)
  }

  function LoadWord(mem: Memory, at: nat): Word {
    mem(at) + 0x100 * mem(at + 1) + 0x1_0000 * mem(at + 2) + 0x100_0000 * mem(at + 3)
  }

  function EventAt(mem: Memory, at: nat): Event {
    var header := LoadWord(mem, at);
    Event(header % 32, header / 32, LoadWord(mem, at + RB_EVNT_HDR_SIZE))
  }

  function EntryAt(mem: Memory, at: nat): Entry {
    Entry(LoadWord(mem, at), LoadWord(mem, at + 4), LoadHalf(mem, at + 8), LoadHalf(mem, at + 10),
          mem(at + 12), mem(at + 13), mem(at + 14))
  }

  // ring_buffer_event_data: a long record keeps its length in the first array word.
  function DataAt(e: Event, at: nat): nat {
    if e.typeLen != 0 then at + 4 else at + 8
  }

  // ---------------------------------------------------------------------------
  // One iteration

  predicate IsData(e: Event) {
    e.typeLen <= TYPE_DATA_MAX
  }

  // The switch statement's effect on ts.
  function NextTs(e: Event, ts: Word64): Word64 {
    if e.typeLen == TYPE_TIME_STAMP then
      FixAbsTsFits(RbEventTimeStamp(e), ts);
      RbFixAbsTs(RbEventTimeStamp(e), ts)
    else if e.typeLen == TYPE_TIME_EXTEND then (ts + RbEventTimeStamp(e)) % CLOCK_LIMIT
    else (ts + e.timeDelta) % CLOCK_LIMIT
  }

  datatype Cursor = Cursor(pos: nat, ts: Word64, out: seq<Record>)

  function Step(mem: Memory, c: Cursor): Cursor {
    var e := EventAt(mem, c.pos);
    var ts := NextTs(e, c.ts);
    Cursor(c.pos + RbEventLength(e), ts,
           if IsData(e) then c.out + [Record(ts, EntryAt(mem, DataAt(e, c.pos)))] else c.out)
  }

  // n iterations of the loop
  function Steps(mem: Memory, commit: nat, c: Cursor, n: nat): Cursor
    decreases n
  {
    if n == 0 || c.pos >= commit then c else Steps(mem, commit, Step(mem, c), n - 1)
  }

  // ---------------------------------------------------------------------------
  // Termination

  // From this position on, no record that starts before the committed bytes end has a length word that wraps.
  predicate NeverStalls(mem: Memory, commit: nat, pos: nat)
    decreases commit - pos
  {
    pos >= commit ||
    var e := EventAt(mem, pos);
    !WrapsHeader(e) && (ZeroLength(e); NeverStalls(mem, commit, pos + RbEventLength(e)))
  }

  lemma NeverStallsStep(mem: Memory, commit: nat, c: Cursor)
    requires NeverStalls(mem, commit, c.pos) && c.pos < commit
    ensures NeverStalls(mem, commit, Step(mem, c).pos) && Step(mem, c).pos > c.pos
  {
    hide EventAt, RbEventLength, WrapsHeader;
    ZeroLength(EventAt(mem, c.pos));
  }

  // The state in which the loop ends.
  ghost function Walk(mem: Memory, commit: nat, c: Cursor): Cursor
    requires NeverStalls(mem, commit, c.pos)
    decreases commit - c.pos
  {
    if c.pos >= commit then c
    else
      NeverStallsStep(mem, commit, c);
      Walk(mem, commit, Step(mem, c))
  }

  // The loop reaches the end of the committed bytes exactly when it meets no such record before.
  lemma TerminatesExactly(mem: Memory, commit: nat, c: Cursor)
    ensures (exists n: nat :: Steps(mem, commit, c, n).pos >= commit) <==> NeverStalls(mem, commit, c.pos)
  {
    hide NeverStalls, Steps;
    if NeverStalls(mem, commit, c.pos) {
      var n := StepsNeeded(mem, commit, c);
    } else {
      forall n: nat ensures Steps(mem, commit, c, n).pos < commit {
        StallsForEver(mem, commit, c, n);
      }
    }
  }

  lemma {:induction false} StepsNeeded(mem: Memory, commit: nat, c: Cursor) returns (n: nat)
    requires NeverStalls(mem, commit, c.pos)
    ensures Steps(mem, commit, c, n).pos >= commit && Steps(mem, commit, c, n) == Walk(mem, commit, c)
    decreases commit - c.pos
  {
    hide NeverStalls, Step;
    n := 0;
    if c.pos < commit {
      NeverStallsStep(mem, commit, c);
      var m := StepsNeeded(mem, commit, Step(mem, c));
      n := m + 1;
    }
  }

  lemma StillStalls(mem: Memory, commit: nat, c: Cursor)
    requires !NeverStalls(mem, commit, c.pos)
    ensures c.pos < commit && !NeverStalls(mem, commit, Step(mem, c).pos)
  {
    hide EventAt, RbEventLength, WrapsHeader;
    ZeroLength(EventAt(mem, c.pos));
  }

  lemma {:induction false} StallsForEver(mem: Memory, commit: nat, c: Cursor, n: nat)
    requires !NeverStalls(mem, commit, c.pos)
    ensures Steps(mem, commit, c, n).pos < commit
    decreases n
  {
    hide Step, NeverStalls;
    StillStalls(mem, commit, c);
    if n > 0 {
      StallsForEver(mem, commit, Step(mem, c), n - 1);
    }
  }

  // Eight bytes on which the loop runs for ever: padding with time delta 1 and length word 0xffff_fffc.
  function StallingPage(): Memory {
    at => if at == 0 then 61 else if at == 4 then 0xFC else if 5 <= at <= 7 then 0xFF else 0
  }

  lemma WalkMayNeverEnd(timeStamp: Word64, n: nat)
    ensures !NeverStalls(StallingPage(), 8, 0)
    ensures Steps(StallingPage(), 8, Cursor(0, timeStamp, []), n).pos < 8
  {
    assert EventAt(StallingPage(), 0) == Event(TYPE_PADDING, 1, WORD_LIMIT - 4);
    StallsForEver(StallingPage(), 8, Cursor(0, timeStamp, []), n);
  }

  // ---------------------------------------------------------------------------
  // process_rb_page

  method ProcessRbPage(mem: Memory, commit: nat, timeStamp: Word64) returns (message: seq<Record>)
    requires NeverStalls(mem, commit, 0)
    ensures message == Walk(mem, commit, Cursor(0, timeStamp, [])).out
  {
    hide NeverStalls, EventAt, EntryAt, RbEventLength, RbEventTimeStamp, RbFixAbsTs;
    var ts: Word64 := timeStamp;
    message := [];
    var bytesRead: nat := 0;
    while bytesRead < commit
      invariant NeverStalls(mem, commit, bytesRead)
      invariant Walk(mem, commit, Cursor(bytesRead, ts, message)) == Walk(mem, commit, Cursor(0, timeStamp, []))
      decreases commit - bytesRead
    {
      NeverStallsStep(mem, commit, Cursor(bytesRead, ts, message));
      var event := EventAt(mem, bytesRead);
      if event.typeLen == TYPE_PADDING {
        ts := (ts + event.timeDelta) % CLOCK_LIMIT;
      } else if event.typeLen == TYPE_TIME_EXTEND {
        var delta := RbEventTimeStamp(event);
        ts := (ts + delta) % CLOCK_LIMIT;
      } else if event.typeLen == TYPE_TIME_STAMP {
        var delta := RbEventTimeStamp(event);
        FixAbsTsFits(delta, ts);
        ts := RbFixAbsTs(delta, ts);
      } else {
        ts := (ts + event.timeDelta) % CLOCK_LIMIT;
        var entry := EntryAt(mem, DataAt(event, bytesRead));
        message := message + [Record(ts, entry)];
      }
      bytesRead := bytesRead + RbEventLength(event);
    }
  }
}
