/** The recording calls and the stream decoder of `plugins/xtrace.c` as code that updates buffers and decoder state in place. */
module XtraceStream {
  import opened XtraceEvents
  import opened XtraceLog
  import opened XtraceText
  import opened XtraceFile

  /** The plugin's threads and its output file. */
  class Recorder {
    const cfg: Config
    const codec: Codec
    var threads: map<nat, ThreadState>
    var file: seq<Block>

    function State(): Writer
      reads this
    {
      Writer(threads, file)
    }

    constructor (cfg: Config, codec: Codec)
      ensures State() == Writer(map[], []) && this.cfg == cfg && this.codec == codec
    {
      this.cfg, this.codec, threads, file := cfg, codec, map[], [];
    }

    /** `xtrace_pc_filtered`. */
    method PcFiltered(pc: Word) returns (filtered: bool)
      ensures filtered == Filtered(cfg, pc)
    {
      if cfg.ranges == [] { return false; }
      var i := 0;
      while i < |cfg.ranges|
        invariant 0 <= i <= |cfg.ranges| && forall k | 0 <= k < i :: !(cfg.ranges[k].0 <= pc <= cfg.ranges[k].1)
      {
        if cfg.ranges[i].0 <= pc <= cfg.ranges[i].1 { return false; }
        i := i + 1;
      }
      return true;
    }

    method FlushThread(tid: nat)
      modifies this
      ensures State() == Flush(codec, old(State()), tid)
    {
      var th := Thread(State(), tid);
      if th.events == [] { return; }
      file := file + [MakeBlock(codec, tid, th.events)];
      threads := threads[tid := th.(events := [])];
    }

    method NextEvent(tid: nat, e: Event)
      modifies this
      ensures State() == Append(codec, old(State()), tid, e)
    {
      if |Thread(State(), tid).events| == EVENTS_PER_BLOCK { FlushThread(tid); }
      var th := Thread(State(), tid);
      threads := threads[tid := th.(events := th.events + [e])];
    }

    method RecordInst(tid: nat, pc: Word, encoding: Word, len: nat, meta: Word, stamp: Word)
      modifies this
      ensures State() == Step(cfg, codec, old(State()), Inst(tid, pc, encoding, len, meta, stamp))
    {
      hide Flush, Append;
      var filtered := PcFiltered(pc);
      if filtered { return; }
      KeepsCursor(cfg, codec, State(), tid);
      var c := Thread(State(), tid).cursor;
      var sampled := Sampled(cfg, c);
      var e := InstE(pc, encoding, if sampled then stamp else 0, meta % 0x1_0000_0000, len, sampled);
      if |Thread(State(), tid).events| > EVENTS_PER_BLOCK - 3 { FlushThread(tid); }
      AppendKeepsCursor(codec, State(), tid, e);
      NextEvent(tid, e);
      threads := threads[tid := Thread(State(), tid).(cursor := c.(instructions := c.instructions + 1))];
    }

    method RecordAccessPre(tid: nat, pc: Word, addr: Word, size: nat, load: bool, store: bool, bytes: seq<Byte>)
      modifies this
      ensures State() == Step(cfg, codec, old(State()), AccessPre(tid, pc, addr, size, load, store, bytes))
    {
      hide Append;
      var filtered := PcFiltered(pc);
      if filtered { return; }
      var e := Access(true, addr, size, bytes);
      AppendKeepsCursor(codec, State(), tid, e);
      if load { NextEvent(tid, e); }
      var th := Thread(State(), tid);
      var pending := Some(Store(addr, size));
      if store && th.cursor.pending != pending { threads := threads[tid := th.(cursor := th.cursor.(pending := pending))]; }
    }

    method RecordStorePost(tid: nat, bytes: seq<Byte>)
      modifies this
      ensures State() == Step(cfg, codec, old(State()), StorePost(tid, bytes))
    {
      hide Append;
      var c := Thread(State(), tid).cursor;
      if c.pending.None? { return; }
      var e := Access(false, c.pending.value.addr, c.pending.value.size, bytes);
      AppendKeepsCursor(codec, State(), tid, e);
      NextEvent(tid, e);
      threads := threads[tid := Thread(State(), tid).(cursor := c.(pending := None))];
    }
  }

  lemma KeepsCursor(cfg: Config, codec: Codec, w: Writer, tid: nat)
    ensures Thread(Flush(codec, w, tid), tid).cursor == Thread(w, tid).cursor
  {
  }

  lemma AppendKeepsCursor(codec: Codec, w: Writer, tid: nat, e: Event)
    ensures Thread(Append(codec, w, tid, e), tid).cursor == Thread(w, tid).cursor
  {
  }

  // ---------- xtrace_decode_stream ----------

  lemma {:induction false} UnpackPrefix(codec: Codec, file: seq<Block>, k: nat)
    requires k <= |file| && Unpack(codec, file).Some?
    ensures Unpack(codec, file[..k]).Some? && Unpack(codec, file[..k]).value <= Unpack(codec, file).value
    decreases |file|
  {
    if k < |file| {
      assert file[..|file| - 1][..k] == file[..k];
      UnpackPrefix(codec, file[..|file| - 1], k);
    } else {
      assert file[..k] == file;
    }
  }

  lemma {:induction false} DecodePrefix(cfg: Config, tes: seq<Tagged>, k: nat)
    requires k <= |tes| && Decode(cfg, tes).Output?
    ensures Decode(cfg, tes[..k]).Output?
    decreases |tes|
  {
    if k < |tes| {
      assert tes[..|tes| - 1][..k] == tes[..k];
      DecodePrefix(cfg, tes[..|tes| - 1], k);
    } else {
      assert tes[..k] == tes;
    }
  }

  /** A file whose beginning is rejected, or cannot be decoded, is rejected. */
  lemma BadPrefix(cfg: Config, codec: Codec, file: seq<Block>, k: nat, tes: seq<Tagged>)
    requires k <= |file| && Decode(cfg, tes).Failed?
    requires Unpack(codec, file[..k]).Some? ==> tes <= Unpack(codec, file[..k]).value
    ensures Unpack(codec, file).None? || Decode(cfg, Unpack(codec, file).value).Failed?
  {
    if Unpack(codec, file).Some? && Decode(cfg, Unpack(codec, file).value).Output? {
      UnpackPrefix(codec, file, k);
      var all := Unpack(codec, file).value;
      assert all[..|tes|] == tes;
      DecodePrefix(cfg, all, |tes|);
    }
  }

  /** One more event of a block. */
  lemma DecodeStep(cfg: Config, tes: seq<Tagged>, tags: seq<Tagged>, j: nat)
    requires j < |tags|
    ensures Decode(cfg, tes + tags[..j + 1]) == DecodeNext(cfg, Decode(cfg, tes + tags[..j]), tags[j])
  {
    hide DecodeNext;
    var all := tes + tags[..j + 1];
    assert all[..|all| - 1] == tes + tags[..j] && all[|all| - 1] == tags[j];
  }

  lemma StaysFailed(cfg: Config, tes: seq<Tagged>, tags: seq<Tagged>, k: nat)
    requires k <= |tags| && Decode(cfg, tes + tags[..k]).Failed?
    ensures Decode(cfg, tes + tags).Failed?
  {
    assert (tes + tags)[..|tes| + k] == tes + tags[..k];
    if Decode(cfg, tes + tags).Output? { DecodePrefix(cfg, tes + tags, |tes| + k); }
  }

  /** The loop over the events of one block. */
  method DecodeEvents(cfg: Config, tid: nat, es: seq<Event>, ghost tes: seq<Tagged>,
                      lines0: seq<Line>, threads0: map<nat, DecodeThread>, ring0: bool)
    returns (ok: bool, lines: seq<Line>, threads: map<nat, DecodeThread>, ring: bool)
    requires Decode(cfg, tes) == Output(lines0, threads0, ring0)
    ensures Decode(cfg, tes + Tag(tid, es)) == if ok then Output(lines, threads, ring) else Failed
  {
    hide DecodeEvent, Decode;
    ok, lines, threads, ring := true, lines0, threads0, ring0;
    ghost var tags := Tag(tid, es);
    assert tes + tags[..0] == tes;
    var j := 0;
    while j < |es|
      invariant 0 <= j <= |es| && ok && Decode(cfg, tes + tags[..j]) == Output(lines, threads, ring)
    {
      DecodeStep(cfg, tes, tags, j);
      var d := DecodeEvent(cfg, es[j], DThread(threads, tid), ring);
      if d.Rejected? {
        StaysFailed(cfg, tes, tags, j + 1);
        ok := false;
        return;
      }
      lines, threads, ring := lines + d.lines, threads[tid := d.thread], d.ring;
      j := j + 1;
    }
    assert tags[..j] == tags;
  }

  /** Timestamps that are off are not scaled, and the recorder's filter is of no interest to the decoder. */
  lemma {:induction false} SameDecode(m: Machine, cfg: Config, tes: seq<Tagged>)
    ensures Decode(Options(WriteHeader(m, cfg)), tes) == Decode(cfg, tes)
    decreases |tes|
  {
    if tes != [] {
      var n := |tes| - 1;
      SameDecode(m, cfg, tes[..n]);
      var o := Decode(cfg, tes[..n]);
      if o.Output? { SameEvent(m, cfg, tes[n].1, DThread(o.threads, tes[n].0), o.ring); }
    }
  }

  lemma SameEvent(m: Machine, cfg: Config, e: Event, d: DecodeThread, ring: bool)
    ensures DecodeEvent(Options(WriteHeader(m, cfg)), e, d, ring) == DecodeEvent(cfg, e, d, ring)
  {
  }

  /** What decoding a file means: its header and blocks are accepted, and so are all events. */
  ghost predicate Decodes(m: Machine, codec: Codec, h: Header, frames: seq<Frame>) {
    && HeaderOk(m, h) && Blocks(frames).Some? && Unpack(codec, Blocks(frames).value).Some?
    && Decode(Options(h), Unpack(codec, Blocks(frames).value).value).Output?
  }

  /** A rejected block, or one whose events are rejected, spoils every file that goes on behind it. */
  lemma BadBlock(codec: Codec, cfg: Config, blocks: seq<Block>, rest: Maybe<seq<Block>>, tes: seq<Tagged>)
    requires Unpack(codec, blocks).None? || (tes <= Unpack(codec, blocks).value && Decode(cfg, tes).Failed?)
    ensures var all := Prepend(blocks, rest);
            all.None? || Unpack(codec, all.value).None? || Decode(cfg, Unpack(codec, all.value).value).Failed?
  {
    if rest.Some? {
      var all := blocks + rest.value;
      assert all[..|blocks|] == blocks;
      if Unpack(codec, all).Some? {
        UnpackPrefix(codec, all, |blocks|);
        BadPrefix(cfg, codec, all, |blocks|, tes);
      }
    }
  }

  /** `xtrace_decode_stream`: one pass over the file decides whether it decodes and prints what it says. */
  method DecodeStream(m: Machine, codec: Codec, h: Header, frames: seq<Frame>) returns (ok: bool, lines: seq<Line>)
    requires !h.cycles
    ensures ok <==> Decodes(m, codec, h, frames)
    ensures ok ==> lines == Decode(Options(h), Unpack(codec, Blocks(frames).value).value).lines
  {
    hide DecodeEvent, Contents;
    ok, lines := HeaderOk(m, h), [];
    if !ok { return; }
    var threads: map<nat, DecodeThread>, ring, cfg := map[], false, Options(h);
    ghost var blocks: seq<Block>, tes: seq<Tagged> := [], [];
    var todo := frames;
    assert Prepend([], Blocks(todo)) == Blocks(frames) by { if Blocks(frames).Some? { assert [] + Blocks(frames).value == Blocks(frames).value; } }
    while true
      invariant ok && Blocks(frames) == Prepend(blocks, Blocks(todo))
      invariant Unpack(codec, blocks) == Some(tes) && Decode(cfg, tes) == Output(lines, threads, ring)
      decreases |todo|
    {
      if todo == [] || todo[0].Garbage? || todo[0].headerBytes != BLOCK_HEADER_BYTES { return false, lines; }
      if todo[0].Eof? {
        assert blocks + [] == blocks;
        return;
      }
      var b := todo[0].block;
      var r := Contents(codec, b);
      PrependTwice(blocks, b, Blocks(todo[1..]));
      assert (blocks + [b])[..|blocks|] == blocks;
      if r.None? || b.tid > MAX_THREAD_ID {
        BadBlock(codec, cfg, blocks + [b], Blocks(todo[1..]), []);
        return false, lines;
      }
      ok, lines, threads, ring := DecodeEvents(cfg, b.tid, r.value, tes, lines, threads, ring);
      blocks, tes := blocks + [b], tes + Tag(b.tid, r.value);
      if !ok {
        BadBlock(codec, cfg, blocks, Blocks(todo[1..]), tes);
        return;
      }
      todo := todo[1..];
    }
  }

  /** The closed log of every run decodes on a machine like the writer's, to what the recorded events say. */
  lemma ClosedLogDecodes(m: Machine, cfg: Config, codec: Codec, ops: seq<Op>)
    requires Lossless(codec) && Runnable(cfg, ops) && Closed(RunOps(cfg, codec, ops))
    requires forall b | b in RunOps(cfg, codec, ops).file :: b.tid <= MAX_THREAD_ID
    ensures var file := RunOps(cfg, codec, ops).file;
            && Decodes(m, codec, WriteHeader(m, cfg), Frames(file)) && Unpack(codec, file).Some?
            && Decode(Options(WriteHeader(m, cfg)), Unpack(codec, file).value) == Decode(cfg, Unpack(codec, file).value)
  {
    var file := RunOps(cfg, codec, ops).file;
    DecoderAcceptsRuns(cfg, codec, ops);
    FileReplays(m, cfg, codec, ops);
    SameDecode(m, cfg, Unpack(codec, file).value);
  }
}
