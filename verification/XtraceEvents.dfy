/**
 The events of the xtrace plugin (`plugins/xtrace.c`, `plugins/xtrace_format.h`): what one thread records for each
 call of `xtrace_record_inst`, `xtrace_record_access_pre` and `xtrace_record_store_post`.
 */
module XtraceEvents {
  import opened Arith

  const EVENTS_PER_BLOCK: nat := 32768
  const EVENT_BYTES: nat := 32
  const MAX_BYTE_VALUE: nat := 16
  const SAMPLE_INTERVAL: nat := 256
  const MAX_THREAD_ID: nat := 0x10_0000

  type Word = v: nat | v < M64
  type Byte = b: nat | b < 256

  datatype Maybe<T> = None | Some(value: T)

  /** Address ranges to record (none: everything), timestamps on or off, and the values of the file header. */
  datatype Config = Config(ranges: seq<(Word, Word)>, clock: bool, hz: Word, level: int, base: Maybe<Word>)

  /** `xtrace_pc_filtered`. */
  predicate Filtered(cfg: Config, pc: Word) {
    cfg.ranges != [] && forall i | 0 <= i < |cfg.ranges| :: !(cfg.ranges[i].0 <= pc <= cfg.ranges[i].1)
  }

  /** `struct xtrace_event`; `data` holds the two data words as bytes, `Unknown` an event type the writer never uses. */
  datatype Event =
    | InstE(pc: Word, encoding: Word, stamp: Word, meta: nat, len: nat, sampled: bool)
    | AccessE(load: bool, addr: Word, meta: nat, data: seq<Byte>, truncated: bool)
    | UnknownE

  /** A call from instrumented code of thread `tid`. `bytes` are the first bytes of the accessed memory at that time. */
  datatype Op =
    | Inst(tid: nat, pc: Word, encoding: Word, len: nat, meta: Word, stamp: Word)
    | AccessPre(tid: nat, pc: Word, addr: Word, size: nat, load: bool, store: bool, bytes: seq<Byte>)
    | StorePost(tid: nat, bytes: seq<Byte>)
    | ThreadExit(tid: nat)

  function Min(a: nat, b: nat): nat {
    if a <= b then a else b
  }

  datatype Store = Store(addr: Word, size: nat)

  /** What a thread carries from one call to the next. */
  datatype Cursor = Cursor(instructions: nat, pending: Maybe<Store>)

  const START: Cursor := Cursor(0, None)

  /** The memory read fits the access: `size` bytes, but never more than 16. */
  predicate Consistent(c: Cursor, op: Op) {
    match op
    case Inst(_, _, _, len, _, _) => len < 16
    case AccessPre(_, _, _, size, _, _, bytes) => size < M64 / 4 && |bytes| == Min(size, MAX_BYTE_VALUE)
    case StorePost(_, bytes) => c.pending.Some? ==> |bytes| == Min(c.pending.value.size, MAX_BYTE_VALUE)
    case ThreadExit(_) => true
  }

  /** `xtrace_capture_value` into a zeroed event. */
  function Padded(bytes: seq<Byte>): (r: seq<Byte>)
    ensures |bytes| <= MAX_BYTE_VALUE ==> |r| == MAX_BYTE_VALUE && r[..|bytes|] == bytes
  {
    if |bytes| >= MAX_BYTE_VALUE then bytes else bytes + seq(MAX_BYTE_VALUE - |bytes|, _ => 0)
  }

  function Access(load: bool, addr: Word, size: nat, bytes: seq<Byte>): Event {
    AccessE(load, addr, Min(size, UINT_MAX), Padded(bytes), size > MAX_BYTE_VALUE)
  }

  predicate Sampled(cfg: Config, c: Cursor) {
    cfg.clock && c.instructions % SAMPLE_INTERVAL == 0
  }

  /** The event recorded by a call, if any, and what the thread carries on. */
  function Record(cfg: Config, c: Cursor, op: Op): (Cursor, seq<Event>) {
    match op
    case Inst(_, pc, encoding, len, meta, stamp) =>
      if Filtered(cfg, pc) then (c, [])
      else
        var sampled := Sampled(cfg, c);
        (c.(instructions := c.instructions + 1),
         [InstE(pc, encoding, if sampled then stamp else 0, meta % 0x1_0000_0000, len, sampled)])
    case AccessPre(_, pc, addr, size, load, store, bytes) =>
      if Filtered(cfg, pc) then (c, [])
      else (if store then c.(pending := Some(Store(addr, size))) else c,
            if load then [Access(true, addr, size, bytes)] else [])
    case StorePost(_, bytes) =>
      if c.pending.None? then (c, [])
      else (c.(pending := None), [Access(false, c.pending.value.addr, c.pending.value.size, bytes)])
    case ThreadExit(_) => (c, [])
  }

  /** All a thread has recorded in a run. */
  function Trail(cfg: Config, ops: seq<Op>, tid: nat): (Cursor, seq<Event>) {
    if ops == [] then (START, [])
    else
      var n := |ops| - 1;
      var (c, es) := Trail(cfg, ops[..n], tid);
      if ops[n].tid != tid then (c, es)
      else
        var (c', more) := Record(cfg, c, ops[n]);
        (c', es + more)
  }

  function Recorded(cfg: Config, ops: seq<Op>, tid: nat): seq<Event> {
    Trail(cfg, ops, tid).1
  }

  // ---------- Properties of what is recorded ----------

  /** The first instruction event carries a timestamp sample when timestamps are on. */
  predicate FirstSampled(cfg: Config, es: seq<Event>) {
    cfg.clock ==> forall i | 0 <= i < |es| && es[i].InstE? && NoInst(es[..i]) :: es[i].sampled
  }

  predicate NoInst(es: seq<Event>) {
    forall i | 0 <= i < |es| :: !es[i].InstE?
  }

  predicate Known(es: seq<Event>) {
    forall i | 0 <= i < |es| :: !es[i].UnknownE?
  }

  lemma RecordShape(cfg: Config, c: Cursor, op: Op)
    ensures var (c', more) := Record(cfg, c, op);
            && |more| <= 1 && Known(more) && (forall e | e in more && e.InstE? :: e.sampled == Sampled(cfg, c))
            && c'.instructions >= c.instructions && (NoInst(more) <==> c'.instructions == c.instructions)
  {
    var more := Record(cfg, c, op).1;
    if |more| == 1 { assert more[0].InstE? <==> !NoInst(more); }
  }

  lemma {:induction false} TrailProperties(cfg: Config, ops: seq<Op>, tid: nat)
    ensures var (c, es) := Trail(cfg, ops, tid); FirstSampled(cfg, es) && Known(es) && (NoInst(es) <==> c.instructions == 0)
    decreases |ops|
  {
    if ops != [] {
      var n := |ops| - 1;
      TrailProperties(cfg, ops[..n], tid);
      var (c, es) := Trail(cfg, ops[..n], tid);
      if ops[n].tid == tid {
        var more := Record(cfg, c, ops[n]).1;
        RecordShape(cfg, c, ops[n]);
        AppendProperties(cfg, c, es, more);
      }
    }
  }

  lemma AppendProperties(cfg: Config, c: Cursor, es: seq<Event>, more: seq<Event>)
    requires FirstSampled(cfg, es) && Known(es) && (NoInst(es) <==> c.instructions == 0)
    requires |more| <= 1 && Known(more) && forall e | e in more && e.InstE? :: e.sampled == Sampled(cfg, c)
    ensures FirstSampled(cfg, es + more) && Known(es + more)
    ensures NoInst(es + more) <==> NoInst(es) && NoInst(more)
  {
    var all := es + more;
    forall i | 0 <= i < |all| && all[i].InstE? && NoInst(all[..i]) && cfg.clock ensures all[i].sampled {
      if i < |es| {
        assert all[..i] == es[..i];
      } else {
        assert all[..i] == es && all[i] in more;
      }
    }
    if NoInst(all) {
      forall i | 0 <= i < |es| ensures !es[i].InstE? { assert !all[i].InstE?; }
      forall i | 0 <= i < |more| ensures !more[i].InstE? { assert !all[|es| + i].InstE?; }
    }
  }
}
