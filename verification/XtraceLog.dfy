/**
 The binary log of the xtrace plugin: per-thread buffers flushed as blocks into one file, in any interleaving, and
 the reader of that file (`xtrace_flush_thread`, `xtrace_next_event`, `xtrace_record_*`, `xtrace_decode_stream` in
 `plugins/xtrace.c`). Writing to the file does not fail.
 */
module XtraceLog {
  import opened XtraceEvents

  /** The memory image of an event array, and a compressor that may give up; bytes in a file are numbers. */
  datatype Codec = Codec(
    raw: seq<Event> -> seq<nat>, unraw: seq<nat> -> seq<Event>,
    pack: seq<Event> -> Maybe<seq<nat>>, unpack: seq<nat> -> Maybe<seq<Event>>)

  ghost predicate Lossless(codec: Codec) {
    forall es: seq<Event> {:trigger codec.raw(es)} {:trigger codec.pack(es)} ::
      && |codec.raw(es)| == EVENT_BYTES * |es| && codec.unraw(codec.raw(es)) == es
      && (codec.pack(es).Some? ==> |codec.pack(es).value| > 0 && codec.unpack(codec.pack(es).value) == Some(es))
  }

  /** `struct xtrace_block_header` with the stored bytes. */
  datatype Block = Block(tid: nat, count: nat, rawSize: nat, stored: seq<nat>, zstd: bool)

  /** `xtrace_flush_thread`: compressed only if that is shorter. */
  function MakeBlock(codec: Codec, tid: nat, es: seq<Event>): Block {
    var packed := codec.pack(es);
    if packed.Some? && |packed.value| < EVENT_BYTES * |es| then Block(tid, |es|, EVENT_BYTES * |es|, packed.value, true)
    else Block(tid, |es|, EVENT_BYTES * |es|, codec.raw(es), false)
  }

  /** The checks the reader makes on a block before it looks at the thread id, and the events it then decodes. */
  function Contents(codec: Codec, b: Block): Maybe<seq<Event>> {
    if b.count > EVENTS_PER_BLOCK || b.rawSize != b.count * EVENT_BYTES || b.stored == [] || |b.stored| > b.rawSize then None
    else if b.zstd then
      var r := codec.unpack(b.stored);
      if r.Some? && EVENT_BYTES * |r.value| == b.rawSize then r else None
    else if |b.stored| == b.rawSize then Some(codec.unraw(b.stored))
    else None
  }

  lemma BlockRoundTrip(codec: Codec, tid: nat, es: seq<Event>)
    requires Lossless(codec) && 0 < |es| <= EVENTS_PER_BLOCK
    ensures Contents(codec, MakeBlock(codec, tid, es)) == Some(es)
  {
    assert |codec.raw(es)| == EVENT_BYTES * |es|;
  }

  /** The events of one thread in the file. */
  function EventsOf(codec: Codec, file: seq<Block>, tid: nat): seq<Event> {
    if file == [] then []
    else
      var n := |file| - 1;
      var r := Contents(codec, file[n]);
      EventsOf(codec, file[..n], tid) + (if file[n].tid == tid && r.Some? then r.value else [])
  }

  // ---------- The reader ----------

  /** A decoded event with its thread. */
  type Tagged = (nat, Event)

  function Tag(tid: nat, es: seq<Event>): (r: seq<Tagged>)
    ensures |r| == |es| && forall i | 0 <= i < |es| :: r[i] == (tid, es[i])
  {
    seq(|es|, i requires 0 <= i < |es| => (tid, es[i]))
  }

  /** All events in file order, or a rejected file. */
  function Unpack(codec: Codec, file: seq<Block>): Maybe<seq<Tagged>> {
    if file == [] then Some([])
    else
      var n := |file| - 1;
      var before, r := Unpack(codec, file[..n]), Contents(codec, file[n]);
      if before.Some? && r.Some? && file[n].tid <= MAX_THREAD_ID then Some(before.value + Tag(file[n].tid, r.value)) else None
  }

  /** The events of one thread, in the order the reader sees them. */
  function Project(tes: seq<Tagged>, tid: nat): seq<Event> {
    if tes == [] then []
    else
      var n := |tes| - 1;
      Project(tes[..n], tid) + (if tes[n].0 == tid then [tes[n].1] else [])
  }

  lemma {:induction false} ProjectConcat(a: seq<Tagged>, b: seq<Tagged>, tid: nat)
    ensures Project(a + b, tid) == Project(a, tid) + Project(b, tid)
    decreases |b|
  {
    if b == [] {
      assert a + b == a;
    } else {
      var n := |b| - 1;
      assert (a + b)[..|a| + n] == a + b[..n];
      ProjectConcat(a, b[..n], tid);
    }
  }

  lemma {:induction false} ProjectTag(owner: nat, es: seq<Event>, tid: nat)
    ensures Project(Tag(owner, es), tid) == if owner == tid then es else []
    decreases |es|
  {
    if es != [] {
      var n := |es| - 1;
      assert Tag(owner, es)[..n] == Tag(owner, es[..n]);
      ProjectTag(owner, es[..n], tid);
    }
  }

  /** The reader accepts a file of well-formed blocks exactly when the thread ids are not too large, and then sees every thread's events. */
  lemma {:induction false} UnpackIff(codec: Codec, file: seq<Block>)
    requires forall b | b in file :: Contents(codec, b).Some?
    ensures Unpack(codec, file).Some? <==> forall b | b in file :: b.tid <= MAX_THREAD_ID
    ensures Unpack(codec, file).Some? ==> forall tid :: Project(Unpack(codec, file).value, tid) == EventsOf(codec, file, tid)
    decreases |file|
  {
    if file != [] {
      var n := |file| - 1;
      UnpackIff(codec, file[..n]);
      assert file == file[..n] + [file[n]];
      var before, es := Unpack(codec, file[..n]), Contents(codec, file[n]).value;
      if before.Some? && file[n].tid <= MAX_THREAD_ID {
        forall tid ensures Project(Unpack(codec, file).value, tid) == EventsOf(codec, file, tid) {
          ProjectConcat(before.value, Tag(file[n].tid, es), tid);
          ProjectTag(file[n].tid, es, tid);
        }
      }
    }
  }

  // ---------- Blocks are cut between instructions ----------

  /** Loads and stores recorded since the last instruction. */
  function Trailing(es: seq<Event>): nat {
    if es == [] || es[|es| - 1].InstE? then 0 else 1 + Trailing(es[..|es| - 1])
  }

  /** A thread records instructions, each followed by at most one load and one store. */
  predicate Tidy(es: seq<Event>) {
    && (es != [] ==> es[0].InstE?)
    && forall k | 0 <= k <= |es| :: Trailing(es[..k]) <= 2
  }

  lemma TidyPrefix(es: seq<Event>, more: seq<Event>)
    requires Tidy(es + more)
    ensures Tidy(es)
  {
    forall k | 0 <= k <= |es| ensures Trailing(es[..k]) <= 2 { assert (es + more)[..k] == es[..k]; }
    if es != [] { assert (es + more)[0] == es[0]; }
  }

  /** A buffer that holds whole instructions with their accesses, and can still take the accesses that may follow. */
  predicate Whole(buffer: seq<Event>) {
    (buffer != [] ==> buffer[0].InstE?) && |buffer| <= EVENTS_PER_BLOCK - 2 + Min(Trailing(buffer), 2)
  }

  lemma {:induction false} TrailingConcat(a: seq<Event>, b: seq<Event>)
    requires b != [] && b[0].InstE?
    ensures Trailing(a + b) == Trailing(b)
    decreases |b|
  {
    var n := |b| - 1;
    assert (a + b)[|a| + n] == b[n] && (a + b)[..|a| + n] == a + b[..n];
    if !b[n].InstE? { TrailingConcat(a, b[..n]); }
  }

  /** In a tidy thread an access never finds its buffer full, and an instruction leaves room for two accesses. */
  lemma WholeAppend(done: seq<Event>, buffer: seq<Event>, e: Event)
    requires Whole(buffer) && Tidy(done + buffer + [e]) && (e.InstE? || buffer != [] || done == [])
    requires e.InstE? ==> |buffer| <= EVENTS_PER_BLOCK - 3
    ensures Whole(buffer + [e]) && |buffer| < EVENTS_PER_BLOCK
  {
    hide Trailing, Tidy;
    var all, b := done + buffer + [e], buffer + [e];
    TidyWhole(all);
    assert all == done + b;
    FirstIsInst(done, buffer, e);
    TrailingConcat(done, b);
    TrailingStep(buffer, e);
  }

  lemma TidyWhole(es: seq<Event>)
    requires Tidy(es) && es != []
    ensures Trailing(es) <= 2 && es[0].InstE?
  {
    assert es[..|es|] == es;
  }

  lemma FirstIsInst(done: seq<Event>, buffer: seq<Event>, e: Event)
    requires Whole(buffer) && (done + buffer + [e])[0].InstE? && (e.InstE? || buffer != [] || done == [])
    ensures (buffer + [e])[0].InstE?
  {
  }

  lemma TrailingStep(buffer: seq<Event>, e: Event)
    ensures Trailing(buffer + [e]) == if e.InstE? then 0 else 1 + Trailing(buffer)
  {
    assert (buffer + [e])[..|buffer|] == buffer;
  }

  // ---------- The writer ----------

  datatype ThreadState = ThreadState(events: seq<Event>, cursor: Cursor)

  /** The threads' buffers and the blocks written so far. */
  datatype Writer = Writer(threads: map<nat, ThreadState>, file: seq<Block>)

  function Thread(w: Writer, tid: nat): ThreadState {
    if tid in w.threads then w.threads[tid] else ThreadState([], START)
  }

  /** `xtrace_flush_thread`. */
  function Flush(codec: Codec, w: Writer, tid: nat): Writer {
    var th := Thread(w, tid);
    if th.events == [] then w
    else Writer(w.threads[tid := th.(events := [])], w.file + [MakeBlock(codec, tid, th.events)])
  }

  /** `xtrace_next_event` and the store into the event it returns. */
  function Append(codec: Codec, w: Writer, tid: nat, e: Event): Writer {
    var w := if |Thread(w, tid).events| == EVENTS_PER_BLOCK then Flush(codec, w, tid) else w;
    var th := Thread(w, tid);
    w.(threads := w.threads[tid := th.(events := th.events + [e])])
  }

  /** The room made before an instruction. */
  function MakeRoom(codec: Codec, w: Writer, tid: nat): Writer {
    if |Thread(w, tid).events| > EVENTS_PER_BLOCK - 3 then Flush(codec, w, tid) else w
  }

  function SetCursor(w: Writer, tid: nat, c: Cursor): Writer {
    if Thread(w, tid).cursor == c then w else w.(threads := w.threads[tid := Thread(w, tid).(cursor := c)])
  }

  /** One call: the events of `Record`, buffered. */
  function Step(cfg: Config, codec: Codec, w: Writer, op: Op): Writer {
    var (c, es) := Record(cfg, Thread(w, op.tid).cursor, op);
    if op.ThreadExit? then Flush(codec, w, op.tid)
    else
      var w := if op.Inst? && es != [] then MakeRoom(codec, w, op.tid) else w;
      var w := if es != [] then Append(codec, w, op.tid, es[0]) else w;
      SetCursor(w, op.tid, c)
  }

  function RunOps(cfg: Config, codec: Codec, ops: seq<Op>): Writer {
    if ops == [] then Writer(map[], [])
    else Step(cfg, codec, RunOps(cfg, codec, ops[..|ops| - 1]), ops[|ops| - 1])
  }

  /** Everything a thread has recorded so far, in blocks or still buffered. */
  function Log(codec: Codec, w: Writer, tid: nat): seq<Event> {
    EventsOf(codec, w.file, tid) + Thread(w, tid).events
  }

  ghost predicate Sound(codec: Codec, w: Writer) {
    && Lossless(codec) && (forall b | b in w.file :: Contents(codec, b).Some?)
    && forall tid | tid in w.threads :: |w.threads[tid].events| <= EVENTS_PER_BLOCK
  }

  lemma FlushSound(codec: Codec, w: Writer, tid: nat, t: nat)
    requires Sound(codec, w)
    ensures var r := Flush(codec, w, tid);
            && Sound(codec, r) && Log(codec, r, t) == Log(codec, w, t) && Thread(r, t).cursor == Thread(w, t).cursor
            && Thread(r, t).events == if t == tid then [] else Thread(w, t).events
  {
    var th := Thread(w, tid);
    if th.events != [] {
      var b := MakeBlock(codec, tid, th.events);
      assert th.events == w.threads[tid].events;
      BlockRoundTrip(codec, tid, th.events);
      var file := w.file + [b];
      assert file[..|w.file|] == w.file;
      if t == tid { assert EventsOf(codec, file, t) + [] == EventsOf(codec, w.file, t) + th.events; }
    }
  }

  lemma AppendSound(codec: Codec, w: Writer, tid: nat, e: Event, t: nat)
    requires Sound(codec, w)
    ensures var r := Append(codec, w, tid, e);
            && Sound(codec, r) && Log(codec, r, t) == Log(codec, w, t) + (if t == tid then [e] else [])
            && Thread(r, t).cursor == Thread(w, t).cursor
  {
    hide MakeBlock, Contents, EventsOf, Flush;
    FlushSound(codec, w, tid, t);
    var w' := if |Thread(w, tid).events| == EVENTS_PER_BLOCK then Flush(codec, w, tid) else w;
    ThreadBound(codec, w', tid);
    FlushSound(codec, w, tid, tid);
    if t == tid {
      assert EventsOf(codec, w'.file, t) + (Thread(w', t).events + [e]) == Log(codec, w', t) + [e];
    }
  }

  lemma ThreadBound(codec: Codec, w: Writer, tid: nat)
    requires Sound(codec, w)
    ensures |Thread(w, tid).events| <= EVENTS_PER_BLOCK
  {
  }

  /** A call adds what it records to its own thread's log and nothing to any other. */
  lemma StepSound(cfg: Config, codec: Codec, w: Writer, op: Op, t: nat)
    requires Sound(codec, w)
    ensures var r := Step(cfg, codec, w, op);
            var (c, es) := Record(cfg, Thread(w, t).cursor, op);
            && Sound(codec, r) && Log(codec, r, t) == Log(codec, w, t) + (if op.tid == t then es else [])
            && Thread(r, t).cursor == if op.tid == t then c else Thread(w, t).cursor
  {
    hide Sound, Log, Flush, Append;
    var tid := op.tid;
    var es := Record(cfg, Thread(w, tid).cursor, op).1;
    RecordShape(cfg, Thread(w, tid).cursor, op);
    FlushSound(codec, w, tid, t);
    FlushSound(codec, w, tid, tid);
    if !op.ThreadExit? {
      var a := if op.Inst? && es != [] then MakeRoom(codec, w, tid) else w;
      if es != [] {
        AppendSound(codec, a, tid, es[0], t);
        assert es == [es[0]];
      }
      var b := if es != [] then Append(codec, a, tid, es[0]) else a;
      CursorSound(codec, b, tid, Record(cfg, Thread(w, tid).cursor, op).0, t);
    }
  }

  lemma CursorSound(codec: Codec, w: Writer, tid: nat, c: Cursor, t: nat)
    requires Sound(codec, w)
    ensures var r := SetCursor(w, tid, c);
            && Sound(codec, r) && Log(codec, r, t) == Log(codec, w, t)
            && Thread(r, t).cursor == if tid == t then c else Thread(w, t).cursor
  {
  }

  /** Conservation: in every interleaving each thread's log is exactly what it recorded, in order. */
  lemma {:induction false} LogIsRecorded(cfg: Config, codec: Codec, ops: seq<Op>, tid: nat)
    requires Lossless(codec)
    ensures var w := RunOps(cfg, codec, ops);
            Sound(codec, w) && Log(codec, w, tid) == Recorded(cfg, ops, tid) && Thread(w, tid).cursor == Trail(cfg, ops, tid).0
    decreases |ops|
  {
    if ops != [] {
      var n := |ops| - 1;
      LogIsRecorded(cfg, codec, ops[..n], tid);
      StepSound(cfg, codec, RunOps(cfg, codec, ops[..n]), ops[n], tid);
    }
  }

  /** All threads have ended, as they have when the log is closed. */
  predicate Closed(w: Writer) {
    forall tid | tid in w.threads :: w.threads[tid].events == []
  }

  /**
   The reader accepts the file of every run unless a thread number exceeds 2^20, and then replays each thread's
   events in the order they were recorded.
   */
  lemma ReaderReplays(cfg: Config, codec: Codec, ops: seq<Op>)
    requires Lossless(codec) && Closed(RunOps(cfg, codec, ops))
    ensures var r := Unpack(codec, RunOps(cfg, codec, ops).file);
            && (r.Some? <==> forall b | b in RunOps(cfg, codec, ops).file :: b.tid <= MAX_THREAD_ID)
            && (r.Some? ==> forall tid :: Project(r.value, tid) == Recorded(cfg, ops, tid))
  {
    var w := RunOps(cfg, codec, ops);
    LogIsRecorded(cfg, codec, ops, 0);
    UnpackIff(codec, w.file);
    forall tid ensures EventsOf(codec, w.file, tid) == Recorded(cfg, ops, tid) {
      LogIsRecorded(cfg, codec, ops, tid);
      assert EventsOf(codec, w.file, tid) + [] == EventsOf(codec, w.file, tid);
    }
  }

  // ---------- No instruction is cut off from its accesses ----------

  /** Every block of the thread starts with an instruction. */
  predicate StartsRight(codec: Codec, file: seq<Block>, tid: nat) {
    forall b | b in file && b.tid == tid && Contents(codec, b).Some? ::
      Contents(codec, b).value != [] && Contents(codec, b).value[0].InstE?
  }

  /** What holds of a tidy thread that has not ended. */
  predicate Uncut(codec: Codec, w: Writer, tid: nat) {
    && StartsRight(codec, w.file, tid) && Whole(Thread(w, tid).events)
    && (Thread(w, tid).events == [] ==> Log(codec, w, tid) == [])
  }

  lemma FlushStarts(codec: Codec, w: Writer, tid: nat, t: nat)
    requires Sound(codec, w) && StartsRight(codec, w.file, t) && Whole(Thread(w, t).events)
    ensures StartsRight(codec, Flush(codec, w, tid).file, t)
  {
    var th := Thread(w, tid);
    if th.events != [] { BlockRoundTrip(codec, tid, th.events); }
  }

  lemma AppendUncut(codec: Codec, w: Writer, tid: nat, e: Event)
    requires Sound(codec, w) && StartsRight(codec, w.file, tid) && Whole(Thread(w, tid).events) && Tidy(Log(codec, w, tid) + [e])
    requires e.InstE? || Thread(w, tid).events != [] || Log(codec, w, tid) == []
    requires e.InstE? ==> |Thread(w, tid).events| <= EVENTS_PER_BLOCK - 3
    ensures Uncut(codec, Append(codec, w, tid, e), tid)
  {
    hide StartsRight, Whole, Tidy, Sound;
    assert Log(codec, w, tid) + [e] == EventsOf(codec, w.file, tid) + Thread(w, tid).events + [e];
    WholeAppend(EventsOf(codec, w.file, tid), Thread(w, tid).events, e);
  }

  lemma CursorUncut(codec: Codec, w: Writer, tid: nat, c: Cursor, t: nat)
    requires Uncut(codec, w, t)
    ensures Uncut(codec, SetCursor(w, tid, c), t)
  {
    hide StartsRight, Whole;
  }

  lemma StepUncut(cfg: Config, codec: Codec, w: Writer, op: Op)
    requires Sound(codec, w) && Uncut(codec, w, op.tid) && !op.ThreadExit?
    requires Tidy(Log(codec, w, op.tid) + Record(cfg, Thread(w, op.tid).cursor, op).1)
    ensures Uncut(codec, Step(cfg, codec, w, op), op.tid)
  {
    hide Append, SetCursor, StartsRight, Tidy, Sound, Flush, Log;
    var tid := op.tid;
    var (c, es) := Record(cfg, Thread(w, tid).cursor, op);
    var a := if op.Inst? && es != [] then MakeRoom(codec, w, tid) else w;
    if es != [] {
      OneEvent(cfg, Thread(w, tid).cursor, op);
      FlushStarts(codec, w, tid, tid);
      FlushSound(codec, w, tid, tid);
      AppendUncut(codec, a, tid, es[0]);
    }
    CursorUncut(codec, if es != [] then Append(codec, a, tid, es[0]) else a, tid, c, tid);
  }

  lemma OneEvent(cfg: Config, c: Cursor, op: Op)
    ensures var es := Record(cfg, c, op).1; es != [] ==> es == [es[0]] && (es[0].InstE? <==> op.Inst?)
  {
  }

  /** The thread never records anything after it has ended. */
  predicate EndsOnce(ops: seq<Op>, tid: nat) {
    forall i, j | 0 <= i < j < |ops| && ops[i] == ThreadExit(tid) :: ops[j].tid != tid
  }

  lemma {:induction false} RunUncut(cfg: Config, codec: Codec, ops: seq<Op>, tid: nat)
    requires Lossless(codec) && EndsOnce(ops, tid) && Tidy(Recorded(cfg, ops, tid))
    ensures var w := RunOps(cfg, codec, ops);
            StartsRight(codec, w.file, tid) && (ThreadExit(tid) !in ops ==> Uncut(codec, w, tid))
    decreases |ops|
  {
    hide Step, StartsRight, Whole, Sound, Tidy, Record, Log;
    if ops == [] {
      NothingCut(cfg, codec, ops, tid);
    } else {
      var n := |ops| - 1;
      var w, op := RunOps(cfg, codec, ops[..n]), ops[n];
      LogIsRecorded(cfg, codec, ops[..n], tid);
      var es := Record(cfg, Thread(w, tid).cursor, op).1;
      if op.tid == tid { TidyPrefix(Recorded(cfg, ops[..n], tid), es); }
      assert EndsOnce(ops[..n], tid);
      RunUncut(cfg, codec, ops[..n], tid);
      assert ops == ops[..n] + [op];
      if op.tid == tid {
        assert ThreadExit(tid) !in ops[..n];
        if op.ThreadExit? {
          FlushStarts(codec, w, tid, tid);
          ExitFlushes(cfg, codec, w, op);
        } else {
          StepUncut(cfg, codec, w, op);
        }
      } else {
        OtherStarts(cfg, codec, w, op, tid);
      }
    }
  }

  lemma NothingCut(cfg: Config, codec: Codec, ops: seq<Op>, tid: nat)
    requires ops == []
    ensures StartsRight(codec, RunOps(cfg, codec, ops).file, tid) && Uncut(codec, RunOps(cfg, codec, ops), tid)
  {
  }

  lemma ExitFlushes(cfg: Config, codec: Codec, w: Writer, op: Op)
    requires op.ThreadExit?
    ensures Step(cfg, codec, w, op) == Flush(codec, w, op.tid)
  {
  }

  /** A call of another thread adds no block of this one. */
  lemma OtherStarts(cfg: Config, codec: Codec, w: Writer, op: Op, tid: nat)
    requires Sound(codec, w) && op.tid != tid && StartsRight(codec, w.file, tid)
    ensures var r := Step(cfg, codec, w, op); StartsRight(codec, r.file, tid) && (Uncut(codec, w, tid) ==> Uncut(codec, r, tid))
  {
    OtherFile(cfg, codec, w, op, tid);
    hide Step, Contents, Whole, Sound, Record;
    StepSound(cfg, codec, w, op, tid);
    StepThread(cfg, codec, w, op, tid);
  }

  lemma OtherFile(cfg: Config, codec: Codec, w: Writer, op: Op, tid: nat)
    requires op.tid != tid
    ensures forall b | b in Step(cfg, codec, w, op).file && b.tid == tid :: b in w.file
  {
  }

  lemma StepThread(cfg: Config, codec: Codec, w: Writer, op: Op, tid: nat)
    requires op.tid != tid
    ensures Thread(Step(cfg, codec, w, op), tid) == Thread(w, tid)
  {
  }

  /** Every block of every tidy thread starts with an instruction, whatever the interleaving. */
  lemma NeverSplits(cfg: Config, codec: Codec, ops: seq<Op>, b: Block)
    requires Lossless(codec) && b in RunOps(cfg, codec, ops).file && EndsOnce(ops, b.tid) && Tidy(Recorded(cfg, ops, b.tid))
    ensures Contents(codec, b).Some? && Contents(codec, b).value != [] && Contents(codec, b).value[0].InstE?
  {
    LogIsRecorded(cfg, codec, ops, b.tid);
    RunUncut(cfg, codec, ops, b.tid);
  }
}
