/**
 What the xtrace decoder prints (`xtrace_decode_event`, `xtrace_decoder_value` in `plugins/xtrace.c`), and what the
 plugin prints itself in text mode. A line is kept as the values that are formatted; both sides share the formatting.
 */
module XtraceText {
  import opened Arith
  import opened XtraceEvents
  import opened XtraceLog

  datatype Value = Unreadable | Number(v: nat) | Bytes(bytes: seq<Byte>, more: bool)

  datatype Line =
    | Ring(level: int, target: Word)
    | InstLine(pc: Word, stamp: Word, encoding: Word, len: nat, instType: nat, inst: nat)
    | AccessLine(load: bool, bits: nat, addr: Word, value: Value)

  /** Little-endian value of a few bytes. */
  function LittleEndian(bytes: seq<Byte>): nat {
    if bytes == [] then 0 else bytes[0] + 256 * LittleEndian(bytes[1..])
  }

  function Pow256(n: nat): (r: nat)
    ensures r > 0
  {
    if n == 0 then 1 else 256 * Pow256(n - 1)
  }

  /** `xtrace_meta_inst_type` (as an int) and `xtrace_meta_inst`. */
  function InstType(meta: nat): nat {
    meta / 0x100_0000 % 0x1_0000_0000
  }

  function InstNo(meta: nat): nat {
    meta % 0x100_0000
  }

  // ---------- The decoder ----------

  /** `xtrace_decoder_value`. */
  function DecodedValue(meta: nat, data: seq<Byte>, truncated: bool): Value
    requires |data| == MAX_BYTE_VALUE
  {
    if meta == 0 then Unreadable
    else if meta <= 8 then
      var value := LittleEndian(data[..8]);
      Number(if meta < 8 then value % Pow256(meta) else value)
    else Bytes(data[..Min(meta, MAX_BYTE_VALUE)], truncated)
  }

  datatype DecodeThread = DecodeThread(sampled: Maybe<Word>, nextPc: Maybe<Word>)

  const FRESH: DecodeThread := DecodeThread(None, None)

  /** `xtrace_scale_timestamp`. */
  function Scale(stamp: Word, hz: Word): Word {
    stamp * hz / 1_000_000_000 % M64
  }

  /** The ring line in front of an instruction, if any. */
  function RingLine(cfg: Config, pc: Word, nextPc: Maybe<Word>, ring: bool): seq<Line> {
    if !ring || (nextPc.Some? && pc != nextPc.value) then
      [Ring(cfg.level, if !ring && cfg.base.Some? then cfg.base.value else pc)]
    else []
  }

  datatype Rendered = Rejected | Rendered(lines: seq<Line>, thread: DecodeThread, ring: bool)

  /** `xtrace_decode_event`. */
  function DecodeEvent(cfg: Config, e: Event, d: DecodeThread, ring: bool): Rendered {
    match e
    case InstE(pc, encoding, stamp, meta, len, sampled) =>
      var latest := if sampled then Some(stamp) else d.sampled;
      var ringLine := RingLine(cfg, pc, d.nextPc, ring);
      var next := Some((pc + len) % M64);
      if !cfg.clock then
        Rendered(ringLine + [InstLine(pc, 0, encoding, len, InstType(meta), InstNo(meta))], d.(nextPc := next), true)
      else if latest.None? then Rejected
      else
        var shown := if cfg.hz != 0 then Scale(latest.value, cfg.hz) else latest.value;
        Rendered(ringLine + [InstLine(pc, shown, encoding, len, InstType(meta), InstNo(meta))], DecodeThread(latest, next), true)
    case AccessE(load, addr, meta, data, truncated) =>
      if |data| != MAX_BYTE_VALUE then Rejected
      else Rendered([AccessLine(load, meta * 8, addr, DecodedValue(meta, data, truncated))], d, ring)
    case UnknownE => Rejected
  }

  datatype Output = Failed | Output(lines: seq<Line>, threads: map<nat, DecodeThread>, ring: bool)

  function DThread(threads: map<nat, DecodeThread>, tid: nat): DecodeThread {
    if tid in threads then threads[tid] else FRESH
  }

  /** One more event of the file. */
  function DecodeNext(cfg: Config, o: Output, te: Tagged): Output {
    match o
    case Failed => Failed
    case Output(lines, threads, ring) =>
      match DecodeEvent(cfg, te.1, DThread(threads, te.0), ring)
      case Rejected => Failed
      case Rendered(more, d, ring') => Output(lines + more, threads[te.0 := d], ring')
  }

  /** The decoder's output for the events of a file. */
  function Decode(cfg: Config, tes: seq<Tagged>): Output {
    if tes == [] then Output([], map[], false) else DecodeNext(cfg, Decode(cfg, tes[..|tes| - 1]), tes[|tes| - 1])
  }

  // ---------- Acceptance ----------

  predicate WellFormed(es: seq<Event>) {
    forall i | 0 <= i < |es| && es[i].AccessE? :: |es[i].data| == MAX_BYTE_VALUE
  }

  /** Every thread's events are of known types, properly padded and start with a timestamp sample if timestamps are on. */
  predicate Decodable(cfg: Config, es: seq<Event>) {
    FirstSampled(cfg, es) && Known(es) && WellFormed(es)
  }

  lemma DecodablePrefix(cfg: Config, es: seq<Event>, more: seq<Event>)
    requires Decodable(cfg, es + more)
    ensures Decodable(cfg, es)
  {
    var all := es + more;
    forall i | 0 <= i < |es| && es[i].InstE? && NoInst(es[..i]) && cfg.clock ensures es[i].sampled {
      assert all[i] == es[i] && all[..i] == es[..i];
    }
    forall i | 0 <= i < |es| ensures !es[i].UnknownE? && (es[i].AccessE? ==> |es[i].data| == MAX_BYTE_VALUE) { assert all[i] == es[i]; }
  }

  /** The decoder accepts every interleaving of threads with decodable events; it has a sample once it has an instruction. */
  lemma {:induction false} DecodeAccepts(cfg: Config, tes: seq<Tagged>)
    requires forall tid :: Decodable(cfg, Project(tes, tid))
    ensures Decode(cfg, tes).Output?
    ensures forall tid | cfg.clock && !NoInst(Project(tes, tid)) :: DThread(Decode(cfg, tes).threads, tid).sampled.Some?
    decreases |tes|
  {
    if tes != [] {
      var n := |tes| - 1;
      var before, tid, e := tes[..n], tes[n].0, tes[n].1;
      forall t ensures Decodable(cfg, Project(before, t)) {
        assert Project(tes, t) == Project(before, t) + if tid == t then [e] else [];
        DecodablePrefix(cfg, Project(before, t), if tid == t then [e] else []);
      }
      DecodeAccepts(cfg, before);
      assert Project(tes, tid) == Project(before, tid) + [e];
      LastDecodable(cfg, Project(before, tid), e);
      var d := DThread(Decode(cfg, before).threads, tid);
      assert DecodeEvent(cfg, e, d, Decode(cfg, before).ring).Rendered?;
      forall t | cfg.clock && !NoInst(Project(tes, t)) ensures DThread(Decode(cfg, tes).threads, t).sampled.Some? {
        if t == tid {
          LastNoInst(Project(before, tid), e);
        } else {
          assert Project(tes, t) == Project(before, t) + [] == Project(before, t);
        }
      }
    }
  }

  lemma LastNoInst(es: seq<Event>, e: Event)
    ensures NoInst(es + [e]) <==> NoInst(es) && !e.InstE?
  {
    if NoInst(es + [e]) {
      forall i | 0 <= i < |es| ensures !es[i].InstE? { assert !(es + [e])[i].InstE?; }
      assert !(es + [e])[|es|].InstE?;
    }
  }

  lemma LastDecodable(cfg: Config, es: seq<Event>, e: Event)
    requires Decodable(cfg, es + [e])
    ensures !e.UnknownE? && (e.AccessE? ==> |e.data| == MAX_BYTE_VALUE)
    ensures cfg.clock && e.InstE? && NoInst(es) ==> e.sampled
  {
    var all := es + [e];
    assert all[|es|] == e && all[..|es|] == es;
  }

  /** Calls whose memory reads fit their accesses. */
  predicate Runnable(cfg: Config, ops: seq<Op>) {
    forall k | 0 <= k < |ops| :: Consistent(Trail(cfg, ops[..k], ops[k].tid).0, ops[k])
  }

  lemma RunnablePrefix(cfg: Config, ops: seq<Op>)
    requires Runnable(cfg, ops) && ops != []
    ensures Runnable(cfg, ops[..|ops| - 1])
    ensures Consistent(Trail(cfg, ops[..|ops| - 1], ops[|ops| - 1].tid).0, ops[|ops| - 1])
  {
    var p := ops[..|ops| - 1];
    forall k | 0 <= k < |p| ensures Consistent(Trail(cfg, p[..k], p[k].tid).0, p[k]) { assert p[..k] == ops[..k]; }
  }

  lemma {:induction false} RecordedWellFormed(cfg: Config, ops: seq<Op>, tid: nat)
    requires Runnable(cfg, ops)
    ensures WellFormed(Recorded(cfg, ops, tid))
    decreases |ops|
  {
    if ops != [] {
      RunnablePrefix(cfg, ops);
      RecordedWellFormed(cfg, ops[..|ops| - 1], tid);
    }
  }

  /** End to end: the decoder accepts the file of every run with thread numbers up to 2^20. */
  lemma DecoderAcceptsRuns(cfg: Config, codec: Codec, ops: seq<Op>)
    requires Lossless(codec) && Runnable(cfg, ops) && Closed(RunOps(cfg, codec, ops))
    requires forall b | b in RunOps(cfg, codec, ops).file :: b.tid <= MAX_THREAD_ID
    ensures var r := Unpack(codec, RunOps(cfg, codec, ops).file); r.Some? && Decode(cfg, r.value).Output?
  {
    ReaderReplays(cfg, codec, ops);
    var tes := Unpack(codec, RunOps(cfg, codec, ops).file).value;
    forall tid ensures Decodable(cfg, Project(tes, tid)) {
      TrailProperties(cfg, ops, tid);
      RecordedWellFormed(cfg, ops, tid);
    }
    DecodeAccepts(cfg, tes);
  }

  // ---------- Text mode ----------

  /** The plugin's own printing state; one thread. */
  datatype TextState = TextState(ring: bool, nextPc: Maybe<Word>, pending: Maybe<Store>)

  /** `xtrace_print_mem_value`. */
  function TextValue(size: nat, bytes: seq<Byte>): Value {
    if size == 0 then Unreadable else if size <= 8 then Number(LittleEndian(bytes)) else Bytes(bytes, size > MAX_BYTE_VALUE)
  }

  /** The lines printed by one call in text mode without timestamps; sizes are counted in 64-bit arithmetic. */
  function TextStep(cfg: Config, s: TextState, op: Op): (TextState, seq<Line>) {
    match op
    case Inst(_, pc, encoding, len, meta, _) =>
      if Filtered(cfg, pc) then (s, [])
      else (TextState(true, Some((pc + len) % M64), s.pending),
            RingLine(cfg, pc, s.nextPc, s.ring) + [InstLine(pc, 0, encoding, len, InstType(meta), InstNo(meta))])
    case AccessPre(_, pc, addr, size, load, store, bytes) =>
      if Filtered(cfg, pc) then (s, [])
      else (if store then s.(pending := Some(Store(addr, size))) else s,
            if load then [AccessLine(true, size * 8 % M64, addr, TextValue(size, bytes))] else [])
    case StorePost(_, bytes) =>
      if s.pending.None? then (s, [])
      else
        var p := s.pending.value;
        (s.(pending := None), [AccessLine(false, p.size * 8 % M64, p.addr, TextValue(p.size, bytes))])
    case ThreadExit(_) => (s, [])
  }

  function TextMode(cfg: Config, ops: seq<Op>): (TextState, seq<Line>) {
    if ops == [] then (TextState(false, None, None), [])
    else
      var (s, lines) := TextMode(cfg, ops[..|ops| - 1]);
      var (s', more) := TextStep(cfg, s, ops[|ops| - 1]);
      (s', lines + more)
  }

  // ---------- Decoding prints what text mode prints ----------

  lemma {:induction false} LowBytes(bytes: seq<Byte>, rest: seq<Byte>)
    ensures LittleEndian(bytes + rest) % Pow256(|bytes|) == LittleEndian(bytes) < Pow256(|bytes|)
    ensures LittleEndian(bytes + rest) == LittleEndian(bytes) + Pow256(|bytes|) * LittleEndian(rest)
    decreases |bytes|
  {
    if bytes == [] {
      assert bytes + rest == rest;
    } else {
      LowBytes(bytes[1..], rest);
      assert (bytes + rest)[1..] == bytes[1..] + rest;
      var p, l, low := Pow256(|bytes| - 1), LittleEndian(rest), LittleEndian(bytes[1..]);
      hide LittleEndian, Pow256;
      assert 256 * (low + p * l) == 256 * low + l * (256 * p) by { Regroup(low, p, l); }
      DivModUnique(bytes[0] + 256 * low + l * (256 * p), 256 * p, l, bytes[0] + 256 * low);
    }
  }

  lemma Regroup(low: nat, p: nat, l: nat)
    ensures 256 * (low + p * l) == 256 * low + l * (256 * p)
    ensures l * (256 * p) == (256 * p) * l
  {
  }

  /** The value decoded from an event is the one text mode reads from memory. */
  lemma SameValue(size: nat, bytes: seq<Byte>)
    requires |bytes| == Min(size, MAX_BYTE_VALUE)
    ensures DecodedValue(Min(size, UINT_MAX), Padded(bytes), size > MAX_BYTE_VALUE) == TextValue(size, bytes)
  {
    var data := Padded(bytes);
    if 0 < size <= 8 {
      var rest := data[..8][size..];
      assert data[..8] == bytes + rest;
      LowBytes(bytes, rest);
      if size == 8 { assert rest == [] && bytes + rest == bytes; }
    } else if size > 8 {
      assert data[..Min(size, MAX_BYTE_VALUE)] == bytes;
    }
  }

  /** Sizes and instruction numbers that survive their 32-bit fields. */
  predicate SizeFits(size: nat) {
    size <= UINT_MAX || size == M64 / 8 + UINT_MAX
  }

  predicate MetaFits(meta: nat) {
    InstType(meta) < 256
  }

  lemma SameSize(size: nat)
    requires size < M64 / 4
    ensures size * 8 % M64 == Min(size, UINT_MAX) * 8 <==> SizeFits(size)
  {
    if size >= M64 / 8 { assert size * 8 == M64 + (size - M64 / 8) * 8; }
  }

  lemma SameMeta(meta: nat)
    ensures InstNo(meta % 0x1_0000_0000) == InstNo(meta)
    ensures InstType(meta % 0x1_0000_0000) == InstType(meta) <==> MetaFits(meta)
  {
    var q := meta / 0x100_0000;
    assert meta % 0x1_0000_0000 / 0x100_0000 == q % 256;
  }

  /** A call whose recorded event loses nothing. */
  predicate Fits(cfg: Config, c: Cursor, op: Op) {
    match op
    case Inst(_, pc, _, _, meta, _) => Filtered(cfg, pc) || MetaFits(meta)
    case AccessPre(_, pc, _, size, load, _, _) => Filtered(cfg, pc) || !load || SizeFits(size)
    case StorePost(_, _) => c.pending.None? || SizeFits(c.pending.value.size)
    case ThreadExit(_) => true
  }

  predicate AllFit(cfg: Config, ops: seq<Op>) {
    forall k | 0 <= k < |ops| :: Fits(cfg, Trail(cfg, ops[..k], ops[k].tid).0, ops[k])
  }

  /** The lines decoded from one call's events, and the lines text mode prints for it. */
  lemma SameStep(cfg: Config, c: Cursor, op: Op, s: TextState, d: DecodeThread)
    requires !cfg.clock && Consistent(c, op) && s.pending == c.pending && s.nextPc == d.nextPc
    requires c.pending.Some? ==> c.pending.value.size < M64 / 4
    ensures var (c', es) := Record(cfg, c, op);
            var (s', lines) := TextStep(cfg, s, op);
            && s'.pending == c'.pending
            && (es == [] ==> lines == [] && s'.ring == s.ring && s'.nextPc == s.nextPc && Fits(cfg, c, op))
            && (es != [] ==>
                  var r := DecodeEvent(cfg, es[0], d, s.ring);
                  && es == [es[0]] && r.Rendered? && r.ring == s'.ring && r.thread.nextPc == s'.nextPc && |r.lines| == |lines|
                  && (r.lines == lines <==> Fits(cfg, c, op)))
  {
    match op {
      case Inst(_, pc, encoding, len, meta, _) =>
        SameMeta(meta);
        if !Filtered(cfg, pc) {
          var ring := RingLine(cfg, pc, s.nextPc, s.ring);
          LastDiffers(ring, InstLine(pc, 0, encoding, len, InstType(meta % 0x1_0000_0000), InstNo(meta)),
                      InstLine(pc, 0, encoding, len, InstType(meta), InstNo(meta)));
        }
      case AccessPre(_, pc, addr, size, load, _, bytes) =>
        SameSize(size);
        SameValue(size, bytes);
      case StorePost(_, bytes) =>
        if c.pending.Some? {
          SameSize(c.pending.value.size);
          SameValue(c.pending.value.size, bytes);
        }
      case ThreadExit(_) =>
    }
  }

  lemma LastDiffers(prefix: seq<Line>, a: Line, b: Line)
    ensures prefix + [a] == prefix + [b] <==> a == b
  {
    assert (prefix + [a])[|prefix|] == a && (prefix + [b])[|prefix|] == b;
  }

  // ---------- One thread ----------

  /** All calls come from thread `tid`. */
  predicate Alone(ops: seq<Op>, tid: nat) {
    forall k | 0 <= k < |ops| :: ops[k].tid == tid
  }

  lemma {:induction false} PendingSmall(cfg: Config, ops: seq<Op>, tid: nat)
    requires Runnable(cfg, ops)
    ensures var c := Trail(cfg, ops, tid).0; c.pending.Some? ==> c.pending.value.size < M64 / 4
    decreases |ops|
  {
    if ops != [] {
      RunnablePrefix(cfg, ops);
      PendingSmall(cfg, ops[..|ops| - 1], tid);
    }
  }

  lemma FitPrefix(cfg: Config, ops: seq<Op>)
    requires ops != []
    ensures var n := |ops| - 1;
            AllFit(cfg, ops) <==> AllFit(cfg, ops[..n]) && Fits(cfg, Trail(cfg, ops[..n], ops[n].tid).0, ops[n])
  {
    var n := |ops| - 1;
    if AllFit(cfg, ops) {
      forall k | 0 <= k < n ensures Fits(cfg, Trail(cfg, ops[..n][..k], ops[..n][k].tid).0, ops[..n][k]) {
        assert ops[..n][..k] == ops[..k];
      }
    }
    if AllFit(cfg, ops[..n]) && Fits(cfg, Trail(cfg, ops[..n], ops[n].tid).0, ops[n]) {
      forall k | 0 <= k < |ops| ensures Fits(cfg, Trail(cfg, ops[..k], ops[k].tid).0, ops[k]) {
        if k < n {
          assert ops[..n][..k] == ops[..k];
          assert Fits(cfg, Trail(cfg, ops[..n][..k], ops[..n][k].tid).0, ops[..n][k]);
        }
      }
    }
  }

  /** Equal-length halves of equal lists are equal. */
  lemma ConcatEqual(a: seq<Line>, b: seq<Line>, c: seq<Line>, d: seq<Line>)
    requires |a| == |c| && |b| == |d|
    ensures a + b == c + d <==> a == c && b == d
  {
    if a + b == c + d {
      assert a == (a + b)[..|a|] && c == (c + d)[..|c|];
      assert b == (a + b)[|a|..] && d == (c + d)[|c|..];
    }
  }

  /** Decoder and text mode have printed equally many lines and agree about where the thread is. */
  predicate Aligned(o: Output, tid: nat, c: Cursor, s: TextState, lines: seq<Line>) {
    o.Output? && o.ring == s.ring && DThread(o.threads, tid).nextPc == s.nextPc && s.pending == c.pending && |o.lines| == |lines|
  }

  lemma NextInStep(cfg: Config, tid: nat, c: Cursor, es: seq<Event>, op: Op, s: TextState, lines: seq<Line>)
    requires !cfg.clock && Consistent(c, op) && (c.pending.Some? ==> c.pending.value.size < M64 / 4)
    requires Aligned(Decode(cfg, Tag(tid, es)), tid, c, s, lines)
    ensures var (c', more) := Record(cfg, c, op);
            var (s', printed) := TextStep(cfg, s, op);
            var o, o' := Decode(cfg, Tag(tid, es)), Decode(cfg, Tag(tid, es + more));
            Aligned(o', tid, c', s', lines + printed) && (o'.lines == lines + printed <==> o.lines == lines && Fits(cfg, c, op))
  {
    hide Record, TextStep, DecodeEvent, Fits, Consistent;
    var o := Decode(cfg, Tag(tid, es));
    SameStep(cfg, c, op, s, DThread(o.threads, tid));
    var more, printed := Record(cfg, c, op).1, TextStep(cfg, s, op).1;
    if more == [] {
      assert es + more == es && lines + printed == lines;
    } else {
      assert Tag(tid, es + more)[..|es|] == Tag(tid, es);
      assert Tag(tid, es + more)[|es|] == (tid, more[0]);
      ConcatEqual(o.lines, DecodeEvent(cfg, more[0], DThread(o.threads, tid), o.ring).lines, lines, printed);
    }
  }

  /** The decoder, fed with one thread's events, stays in step with text mode. */
  lemma {:induction false} InStep(cfg: Config, ops: seq<Op>, tid: nat)
    requires !cfg.clock && Runnable(cfg, ops) && Alone(ops, tid)
    ensures var o := Decode(cfg, Tag(tid, Recorded(cfg, ops, tid)));
            var (s, lines) := TextMode(cfg, ops);
            Aligned(o, tid, Trail(cfg, ops, tid).0, s, lines) && (o.lines == lines <==> AllFit(cfg, ops))
    decreases |ops|
  {
    hide Record, TextStep, DecodeEvent, Fits, Consistent, AllFit, Runnable, Decode;
    if ops == [] {
      NothingInStep(cfg, ops, tid);
    } else {
      var n := |ops| - 1;
      RunnablePrefix(cfg, ops);
      InStep(cfg, ops[..n], tid);
      PendingSmall(cfg, ops[..n], tid);
      FitPrefix(cfg, ops);
      var (c, es) := Trail(cfg, ops[..n], tid);
      var (s, lines) := TextMode(cfg, ops[..n]);
      NextInStep(cfg, tid, c, es, ops[n], s, lines);
    }
  }

  lemma NothingInStep(cfg: Config, ops: seq<Op>, tid: nat)
    requires ops == []
    ensures Decode(cfg, Tag(tid, Recorded(cfg, ops, tid))) == Output([], map[], false) && AllFit(cfg, ops)
  {
  }

  /** What the reader hands to the decoder when there is only one thread. */
  lemma {:induction false} OneThreadFile(tes: seq<Tagged>, tid: nat)
    requires forall i | 0 <= i < |tes| :: tes[i].0 == tid
    ensures tes == Tag(tid, Project(tes, tid))
    decreases |tes|
  {
    if tes != [] {
      var n := |tes| - 1;
      OneThreadFile(tes[..n], tid);
      assert tes == tes[..n] + [tes[n]];
    }
  }

  lemma {:induction false} OnlyTid(cfg: Config, codec: Codec, ops: seq<Op>, tid: nat)
    requires Alone(ops, tid)
    ensures var w := RunOps(cfg, codec, ops);
            && (forall b | b in w.file :: b.tid == tid)
            && (Unpack(codec, w.file).Some? ==> forall i | 0 <= i < |Unpack(codec, w.file).value| :: Unpack(codec, w.file).value[i].0 == tid)
    decreases |ops|
  {
    if ops != [] {
      var n := |ops| - 1;
      OnlyTid(cfg, codec, ops[..n], tid);
      TidOfFile(codec, RunOps(cfg, codec, ops).file, tid);
    }
  }

  lemma {:induction false} TidOfFile(codec: Codec, file: seq<Block>, tid: nat)
    requires forall b | b in file :: b.tid == tid
    ensures Unpack(codec, file).Some? ==> forall i | 0 <= i < |Unpack(codec, file).value| :: Unpack(codec, file).value[i].0 == tid
    decreases |file|
  {
    if file != [] { TidOfFile(codec, file[..|file| - 1], tid); }
  }

  /**
   For one thread with timestamps off, decoding the binary log prints exactly the lines of text mode if and only if
   every recorded size and instruction number survives its 32-bit field.
   */
  lemma SameTextIff(cfg: Config, codec: Codec, ops: seq<Op>, tid: nat)
    requires Lossless(codec) && !cfg.clock && Runnable(cfg, ops) && Alone(ops, tid) && tid <= MAX_THREAD_ID
    requires Closed(RunOps(cfg, codec, ops))
    ensures var r := Unpack(codec, RunOps(cfg, codec, ops).file);
            r.Some? && Decode(cfg, r.value).Output? && (Decode(cfg, r.value).lines == TextMode(cfg, ops).1 <==> AllFit(cfg, ops))
  {
    OnlyTid(cfg, codec, ops, tid);
    ReaderReplays(cfg, codec, ops);
    var tes := Unpack(codec, RunOps(cfg, codec, ops).file).value;
    OneThreadFile(tes, tid);
    assert Project(tes, tid) == Recorded(cfg, ops, tid);
    InStep(cfg, ops, tid);
  }
}
