/**
 The file around the blocks of the xtrace log: its header, the block headers' magic numbers and the EOF block
 (`xtrace_write_file_header`, `xtrace_exit_handler` and the checks of `xtrace_decode_stream` in `plugins/xtrace.c`).
 */
module XtraceFile {
  import opened XtraceEvents
  import opened XtraceLog

  const FILE_VERSION: nat := 1
  const HEADER_BYTES: nat := 64
  const BLOCK_HEADER_BYTES: nat := 32
  const UNKNOWN_ARCH: nat := 0

  /** What a header says about the machine it was written on. */
  datatype Machine = Machine(littleEndian: bool, pointerBytes: nat, arch: nat)

  /** `struct xtrace_file_header`, with its flags one by one. */
  datatype Header = Header(
    magic: bool, version: nat, headerBytes: nat, eventBytes: nat, byteOrder: nat, pointerBytes: nat, arch: nat,
    clock: bool, baseOverride: bool, cycles: bool, otherFlags: bool, level: int, base: Word, hz: Word)

  function WriteHeader(m: Machine, cfg: Config): Header {
    Header(true, FILE_VERSION, HEADER_BYTES, EVENT_BYTES, if m.littleEndian then 1 else 2, m.pointerBytes, m.arch,
           cfg.clock, cfg.base.Some?, false, false, cfg.level, if cfg.base.Some? then cfg.base.value else 0, if cfg.clock then cfg.hz else 0)
  }

  predicate HeaderOk(m: Machine, h: Header) {
    && h.magic && h.version == FILE_VERSION && h.headerBytes == HEADER_BYTES && h.eventBytes == EVENT_BYTES
          && h.pointerBytes == m.pointerBytes
    && !h.otherFlags && !(h.clock && h.cycles) && (h.hz != 0 ==> h.clock)
    && h.byteOrder == (if m.littleEndian then 1 else 2) && (m.arch == UNKNOWN_ARCH || m.arch == h.arch)
  }

  /** A log can be decoded exactly on machines like the one it was written on, whatever its options were. */
  lemma HeaderAcceptedIff(writer: Machine, reader: Machine, cfg: Config)
    ensures HeaderOk(reader, WriteHeader(writer, cfg)) <==>
            && reader.pointerBytes == writer.pointerBytes && reader.littleEndian == writer.littleEndian
            && (reader.arch == UNKNOWN_ARCH || reader.arch == writer.arch)
  {
  }

  /** The options the decoder reads from a header. */
  function Options(h: Header): Config {
    Config([], h.clock, h.hz, h.level, if h.baseOverride then Some(h.base) else None)
  }

  /** A block header with its stored bytes, by its magic number; `Garbage` has another one, or flags not known. */
  datatype Frame = Data(headerBytes: nat, block: Block) | Eof(headerBytes: nat) | Garbage

  function Prepend(bs: seq<Block>, rest: Maybe<seq<Block>>): Maybe<seq<Block>> {
    if rest.Some? then Some(bs + rest.value) else None
  }

  /** The blocks in front of the EOF block; what follows it is not looked at. */
  function Blocks(frames: seq<Frame>): Maybe<seq<Block>> {
    if frames == [] then None
    else
      match frames[0]
      case Eof(n) => if n == BLOCK_HEADER_BYTES then Some([]) else None
      case Data(n, b) => if n == BLOCK_HEADER_BYTES then Prepend([b], Blocks(frames[1..])) else None
      case Garbage => None
  }

  /** What is in the file once the log is closed. */
  function Frames(file: seq<Block>): seq<Frame> {
    if file == [] then [Eof(BLOCK_HEADER_BYTES)] else [Data(BLOCK_HEADER_BYTES, file[0])] + Frames(file[1..])
  }

  lemma {:induction false} FramesRoundTrip(file: seq<Block>, junk: seq<Frame>)
    ensures Blocks(Frames(file) + junk) == Some(file)
    decreases |file|
  {
    var all := Frames(file) + junk;
    if file == [] {
      assert all[0] == Eof(BLOCK_HEADER_BYTES);
    } else {
      assert all[1..] == Frames(file[1..]) + junk && all[0] == Frames(file)[0];
      FramesRoundTrip(file[1..], junk);
      assert [file[0]] + file[1..] == file;
    }
  }

  /** A log that was cut off is never accepted. */
  lemma {:induction false} TruncatedIsRejected(file: seq<Block>, k: nat)
    requires k < |Frames(file)|
    ensures Blocks(Frames(file)[..k]).None?
    decreases |file|
  {
    if file != [] && k > 0 {
      assert Frames(file)[..k][1..] == Frames(file[1..])[..k - 1];
      TruncatedIsRejected(file[1..], k - 1);
    }
  }

  /**
   The reader accepts the closed log of every run, on a machine like the writer's, unless a thread number exceeds
   2^20, and finds each thread's events in the order they were recorded.
   */
  lemma FileReplays(m: Machine, cfg: Config, codec: Codec, ops: seq<Op>)
    requires Lossless(codec) && Closed(RunOps(cfg, codec, ops))
    ensures var file := RunOps(cfg, codec, ops).file;
            && HeaderOk(m, WriteHeader(m, cfg)) && Blocks(Frames(file)) == Some(file)
            && (Unpack(codec, file).Some? <==> forall b | b in file :: b.tid <= MAX_THREAD_ID)
            && (Unpack(codec, file).Some? ==> forall tid :: Project(Unpack(codec, file).value, tid) == Recorded(cfg, ops, tid))
  {
    var file := RunOps(cfg, codec, ops).file;
    FramesRoundTrip(file, []);
    assert Frames(file) + [] == Frames(file);
    ReaderReplays(cfg, codec, ops);
  }

  lemma PrependTwice(bs: seq<Block>, b: Block, rest: Maybe<seq<Block>>)
    ensures Prepend(bs, Prepend([b], rest)) == Prepend(bs + [b], rest)
  {
    if rest.Some? { assert bs + ([b] + rest.value) == bs + [b] + rest.value; }
  }
}
