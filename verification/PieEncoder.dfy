/**
 PIE's encoder and field decoder generators (`pie/generate_encoder.rb`, `pie/generate_field-decoder.rb`,
 `pie/generate_common.rb`). The C words these programs compute are modelled as bit sequences indexed by
 weight, so that `|`, `<<`, `>>` and `& mask` keep their bitwise meaning.
 */
module PieEncoder {
  import opened PieDecoder

  /** A 32-bit C word; index `k` is the bit of weight 2^k. */
  type Bits = b: seq<bool> | |b| == 32 witness seq(32, _ => false)

  function Or(a: Bits, b: Bits): Bits {
    seq(32, i requires 0 <= i < 32 => a[i] || b[i])
  }

  function Shl(a: Bits, k: nat): Bits {
    seq(32, i requires 0 <= i < 32 => i >= k && a[i - k])
  }

  function Shr(a: Bits, k: nat): Bits {
    seq(32, i requires 0 <= i < 32 => i + k < 32 && a[i + k])
  }

  /** `a & ((1 << width) - 1)`. */
  function Low(a: Bits, width: nat): Bits {
    seq(32, i requires 0 <= i < 32 => i < width && a[i])
  }

  // ---------- get_field_shift, get_field_mask ----------

  function Index(p: Pattern, l: char): (r: nat)
    requires Field(l) in p
    ensures r < |p| && p[r] == Field(l) && forall j | 0 <= j < r :: p[j] != Field(l)
  {
    if p[0] == Field(l) then 0 else 1 + Index(p[1..], l)
  }

  function RIndex(p: Pattern, l: char): (r: nat)
    requires Field(l) in p
    ensures r < |p| && p[r] == Field(l) && forall j | r < j < |p| :: p[j] != Field(l)
  {
    if p[|p| - 1] == Field(l) then |p| - 1 else RIndex(p[..|p| - 1], l)
  }

  function Shift(p: Pattern, l: char): nat
    requires Field(l) in p
  {
    |p| - RIndex(p, l) - 1
  }

  function MaskWidth(p: Pattern, l: char): int
    requires Field(l) in p
  {
    RIndex(p, l) - Index(p, l) + 1
  }

  predicate Contiguous(p: Pattern, l: char)
    requires Field(l) in p
  {
    forall i | Index(p, l) <= i <= RIndex(p, l) :: p[i] == Field(l)
  }

  /** The labels of the pattern, in the order of the field list, each defined exactly once. */
  predicate Describes(p: Pattern, labels: seq<char>) {
    && 0 < |p| <= 32
    && (forall l | l in labels :: Field(l) in p)
    && (forall i | 0 <= i < |p| && p[i].Field? :: p[i].name in labels)
  }

  type Args = char -> Bits

  // ---------- Word assembly and field extraction ----------

  function FixedBits(p: Pattern): Bits {
    seq(32, i requires 0 <= i < 32 => i < |p| && p[|p| - 1 - i].One?)
  }

  /** The expression the encoder prints: fixed bits, then one masked and shifted term per field. */
  function Assemble(p: Pattern, labels: seq<char>, args: Args): Bits
    requires forall l | l in labels :: Field(l) in p && MaskWidth(p, l) >= 0
  {
    if labels == [] then FixedBits(p)
    else
      var l := labels[|labels| - 1];
      Or(Assemble(p, labels[..|labels| - 1], args), Shl(Low(args(l), MaskWidth(p, l)), Shift(p, l)))
  }

  lemma MaskWidthPositive(p: Pattern, l: char)
    requires Field(l) in p
    ensures MaskWidth(p, l) >= 1
  {
    assert Index(p, l) <= RIndex(p, l);
  }

  function Encode(p: Pattern, labels: seq<char>, args: Args): Bits
    requires forall l | l in labels :: Field(l) in p
  {
    assert forall l | l in labels :: MaskWidth(p, l) >= 0 by {
      forall l | l in labels ensures MaskWidth(p, l) >= 0 { MaskWidthPositive(p, l); }
    }
    Assemble(p, labels, args)
  }

  function DecodeField(p: Pattern, l: char, word: Bits): Bits
    requires Field(l) in p
  {
    MaskWidthPositive(p, l);
    Low(Shr(word, Shift(p, l)), MaskWidth(p, l))
  }

  /** The first `|p|` bits of a C word as the decoder sees them, most significant bit first. */
  function Msb(word: Bits, n: nat): Word
    requires n <= 32
  {
    seq(n, i requires 0 <= i < n => word[n - 1 - i])
  }

  /** The field `l` contributes its argument's bit `i - Shift` to weight `i`. */
  predicate Contributes(p: Pattern, l: char, arg: Bits, i: nat)
    requires Field(l) in p
  {
    Shift(p, l) <= i < Shift(p, l) + MaskWidth(p, l) && i - Shift(p, l) < 32 && arg[i - Shift(p, l)]
  }

  lemma {:induction false} AssembleBit(p: Pattern, labels: seq<char>, args: Args, i: nat)
    requires i < 32
    requires forall l | l in labels :: Field(l) in p && MaskWidth(p, l) >= 0
    ensures Assemble(p, labels, args)[i] <==>
            FixedBits(p)[i] || exists l :: l in labels && Contributes(p, l, args(l), i)
  {
    hide Index, RIndex, FixedBits;
    if labels != [] {
      var n := |labels| - 1;
      var l := labels[n];
      AssembleBit(p, labels[..n], args, i);
      var term := Shl(Low(args(l), MaskWidth(p, l)), Shift(p, l));
      assert term[i] <==> Contributes(p, l, args(l), i);
      assert labels == labels[..n] + [l];
    }
  }

  lemma EncodeBit(p: Pattern, labels: seq<char>, args: Args, i: nat)
    requires i < 32 && forall l | l in labels :: Field(l) in p
    ensures Encode(p, labels, args)[i] <==>
            FixedBits(p)[i] || exists l :: l in labels && Contributes(p, l, args(l), i)
  {
    hide Index, RIndex, FixedBits, Contributes;
    forall l | l in labels ensures MaskWidth(p, l) >= 0 { MaskWidthPositive(p, l); }
    AssembleBit(p, labels, args, i);
  }

  /** With contiguous fields only the labelled field contributes to a field position, and none to a fixed one. */
  lemma OwnerOnly(p: Pattern, l: char, arg: Bits, i: nat)
    requires Field(l) in p && Contiguous(p, l) && i < 32
    requires Contributes(p, l, arg, i)
    ensures i < |p| && p[|p| - 1 - i] == Field(l)
  {
    hide Index, RIndex;
    assert Index(p, l) <= |p| - 1 - i <= RIndex(p, l);
  }

  lemma DecodedBit(p: Pattern, l: char, word: Bits, k: nat)
    requires Field(l) in p && k < 32
    ensures DecodeField(p, l, word)[k] <==> k < MaskWidth(p, l) && k + Shift(p, l) < 32 && word[k + Shift(p, l)]
  {
    hide Index, RIndex;
  }

  // ---------- Round trips ----------

  /** Field-decoding an encoded instruction gives each argument truncated to its width. */
  lemma DecodeAfterEncode(p: Pattern, labels: seq<char>, args: Args, l: char)
    requires Describes(p, labels) && l in labels
    requires forall m | m in labels :: Contiguous(p, m)
    ensures DecodeField(p, l, Encode(p, labels, args)) == Low(args(l), MaskWidth(p, l))
  {
    hide Index, RIndex, Encode, DecodeField;
    var word := Encode(p, labels, args);
    forall k | 0 <= k < 32 ensures DecodeField(p, l, word)[k] == Low(args(l), MaskWidth(p, l))[k] {
      DecodedBit(p, l, word, k);
      if k < MaskWidth(p, l) {
        var i := k + Shift(p, l);
        assert Index(p, l) <= |p| - 1 - i <= RIndex(p, l);
        EncodeBit(p, labels, args, i);
        if args(l)[k] { assert Contributes(p, l, args(l), i); }
        if word[i] {
          var m :| m in labels && Contributes(p, m, args(m), i);
          OwnerOnly(p, m, args(m), i);
        }
      }
    }
  }

  /** The encoded word is an instance of its pattern. */
  lemma EncodeMatches(p: Pattern, labels: seq<char>, args: Args)
    requires Describes(p, labels)
    requires forall m | m in labels :: Contiguous(p, m)
    ensures Matches(p, Msb(Encode(p, labels, args), |p|))
  {
    hide Index, RIndex, Encode;
    var word := Encode(p, labels, args);
    forall j: nat | j < |p| ensures Agrees(p, Msb(word, |p|), j) {
      var i := |p| - 1 - j;
      EncodeBit(p, labels, args, i);
      if word[i] && p[j] == Zero {
        var m :| m in labels && Contributes(p, m, args(m), i);
        OwnerOnly(p, m, args(m), i);
        assert false;
      }
    }
  }

  function DecodedArgs(p: Pattern, word: Bits): Args {
    l => if Field(l) in p then DecodeField(p, l, word) else word
  }

  /** A field can only contribute the very bit it was decoded from. */
  lemma DecodedContribution(p: Pattern, l: char, word: Bits, i: nat)
    requires Field(l) in p && i < 32
    ensures Contributes(p, l, DecodedArgs(p, word)(l), i) <==>
            Shift(p, l) <= i < Shift(p, l) + MaskWidth(p, l) && word[i]
  {
    hide Index, RIndex, DecodeField;
    if Shift(p, l) <= i { DecodedBit(p, l, word, i - Shift(p, l)); }
  }

  lemma ReencodedBit(p: Pattern, labels: seq<char>, word: Bits, i: nat)
    requires Describes(p, labels) && i < 32
    requires Matches(p, Msb(word, |p|)) && forall i | |p| <= i < 32 :: !word[i]
    ensures Encode(p, labels, DecodedArgs(p, word))[i] == word[i]
  {
    hide Index, RIndex, Encode, DecodeField, DecodedArgs;
    var args := DecodedArgs(p, word);
    EncodeBit(p, labels, args, i);
    forall l | l in labels ensures Contributes(p, l, args(l), i) ==> word[i] {
      DecodedContribution(p, l, word, i);
    }
    if i < |p| {
      var j := |p| - 1 - i;
      assert Agrees(p, Msb(word, |p|), j);
      if word[i] && p[j].Field? {
        DecodedContribution(p, p[j].name, word, i);
      }
    }
  }

  /** Re-encoding the decoded fields gives back every matching word; no contiguity is needed. */
  lemma EncodeAfterDecode(p: Pattern, labels: seq<char>, word: Bits)
    requires Describes(p, labels)
    requires Matches(p, Msb(word, |p|)) && forall i | |p| <= i < 32 :: !word[i]
    ensures Encode(p, labels, DecodedArgs(p, word)) == word
  {
    forall i | 0 <= i < 32 ensures Encode(p, labels, DecodedArgs(p, word))[i] == word[i] {
      ReencodedBit(p, labels, word, i);
    }
  }

  const NoBits: Bits := seq(32, _ => false)
  const AllOnes: Bits := seq(32, _ => true)

  /** Everything a caller wants of an encoder: an instance of the pattern from which the arguments come back. */
  ghost predicate Faithful(p: Pattern, labels: seq<char>)
    requires Describes(p, labels)
  {
    forall args: Args :: FaithfulFor(p, labels, args)
  }

  predicate FaithfulFor(p: Pattern, labels: seq<char>, args: Args)
    requires Describes(p, labels)
  {
    && Matches(p, Msb(Encode(p, labels, args), |p|))
    && forall l | l in labels :: DecodeField(p, l, Encode(p, labels, args)) == Low(args(l), MaskWidth(p, l))
  }

  /** Contiguity is exactly what the generated pair needs. */
  lemma FaithfulIffContiguous(p: Pattern, labels: seq<char>)
    requires Describes(p, labels)
    ensures Faithful(p, labels) <==> forall l | l in labels :: Contiguous(p, l)
  {
    if forall l | l in labels :: Contiguous(p, l) {
      forall args: Args ensures FaithfulFor(p, labels, args) {
        EncodeMatches(p, labels, args);
        forall l | l in labels ensures DecodeField(p, l, Encode(p, labels, args)) == Low(args(l), MaskWidth(p, l)) {
          DecodeAfterEncode(p, labels, args, l);
        }
      }
    } else {
      var l :| l in labels && !Contiguous(p, l);
      GapBreaksFaithful(p, labels, l);
    }
  }

  /** Every field argument zero except, when `on`, the one of `l`. */
  function Probe(l: char, on: bool): Args {
    m => if m == l && on then AllOnes else NoBits
  }

  /** A foreign position `j` inside the span of `l`: a fixed one leaks into the decoded field. */
  lemma FixedOneLeaks(p: Pattern, labels: seq<char>, l: char, j: nat)
    requires Describes(p, labels) && l in labels && Index(p, l) <= j <= RIndex(p, l) && p[j] == One
    ensures DecodeField(p, l, Encode(p, labels, Probe(l, false))) != Low(Probe(l, false)(l), MaskWidth(p, l))
  {
    hide Index, RIndex, Encode, DecodeField;
    var k := RIndex(p, l) - j;
    var args := Probe(l, false);
    var word := Encode(p, labels, args);
    assert word[|p| - 1 - j] by {
      EncodeBit(p, labels, args, |p| - 1 - j);
    }
    assert DecodeField(p, l, word)[k] by {
      DecodedBit(p, l, word, k);
    }
    assert !Low(args(l), MaskWidth(p, l))[k];
  }

  /** The probe writes a one at position `j`. */
  lemma ProbeWrites(p: Pattern, labels: seq<char>, l: char, j: nat)
    requires Describes(p, labels) && l in labels && Index(p, l) <= j <= RIndex(p, l)
    ensures Encode(p, labels, Probe(l, true))[|p| - 1 - j]
  {
    hide Index, RIndex, Encode;
    var i := |p| - 1 - j;
    EncodeBit(p, labels, Probe(l, true), i);
    assert Contributes(p, l, Probe(l, true)(l), i);
  }

  /** A foreign field: it reads a one although its argument is zero. */
  lemma FieldLeaks(p: Pattern, labels: seq<char>, l: char, j: nat)
    requires Describes(p, labels) && l in labels && Index(p, l) <= j <= RIndex(p, l) && p[j].Field? && p[j].name != l
    ensures var m := p[j].name;
            m in labels && DecodeField(p, m, Encode(p, labels, Probe(l, true))) != Low(Probe(l, true)(m), MaskWidth(p, m))
  {
    hide Index, RIndex, Encode, DecodeField;
    var i, m := |p| - 1 - j, p[j].name;
    ProbeWrites(p, labels, l, j);
    assert Index(p, m) <= j <= RIndex(p, m);
    DecodedBit(p, m, Encode(p, labels, Probe(l, true)), i - Shift(p, m));
    assert !Low(Probe(l, true)(m), MaskWidth(p, m))[i - Shift(p, m)];
  }

  lemma GapBreaksFaithful(p: Pattern, labels: seq<char>, l: char)
    requires Describes(p, labels) && l in labels && !Contiguous(p, l)
    ensures !Faithful(p, labels)
  {
    hide Index, RIndex, Encode, DecodeField, MaskWidth, Low;
    var j :| Index(p, l) <= j <= RIndex(p, l) && p[j] != Field(l);
    if p[j] == One {
      FixedOneLeaks(p, labels, l, j);
      assert !FaithfulFor(p, labels, Probe(l, false));
    } else {
      ProbeWrites(p, labels, l, j);
      if p[j] == Zero {
        assert !Agrees(p, Msb(Encode(p, labels, Probe(l, true)), |p|), j);
      } else {
        FieldLeaks(p, labels, l, j);
      }
      assert !FaithfulFor(p, labels, Probe(l, true));
    }
  }

  // ---------- Halfword order in memory ----------

  /** A halfword in memory, indexed by weight. */
  type Half = b: seq<bool> | |b| == 16 witness seq(16, _ => false)

  /** The stores the encoder prints for a 32-bit pattern in a 16-bit table. */
  function Store(word: Bits, swaphw: bool): (Half, Half) {
    if swaphw then (word[..16], word[16..]) else (word[16..], word[..16])
  }

  /** The load the field decoder prints. */
  function Load(mem: (Half, Half), swaphw: bool): Bits {
    if swaphw then mem.0 + mem.1 else mem.1 + mem.0
  }

  function SwapHalves(p: Pattern): Pattern {
    if |p| == 32 then p[16..32] + p[0..16] else p
  }

  /** The halfword as the tree decoder tests it. */
  function HalfMsb(h: Half): Word {
    seq(16, i requires 0 <= i < 16 => h[15 - i])
  }

  lemma LoadAfterStore(word: Bits, swaphw: bool)
    ensures Load(Store(word, swaphw), swaphw) == word
    ensures var (a, b) := Store(word, swaphw);
            var w := Msb(word, 32);
            HalfMsb(a) + HalfMsb(b) == if swaphw then w[16..] + w[..16] else w
  {
    assert word == word[..16] + word[16..];
    var (a, b) := Store(word, swaphw);
    var w := Msb(word, 32);
    if swaphw {
      assert HalfMsb(a) == w[16..];
      assert HalfMsb(b) == w[..16];
    } else {
      assert HalfMsb(a) == w[..16];
      assert HalfMsb(b) == w[16..];
      assert w == w[..16] + w[16..];
    }
  }

  lemma SwapPreservesMatch(p: Pattern, w: Word)
    requires |p| == 32 && |w| == 32
    ensures Matches(SwapHalves(p), w[16..] + w[..16]) <==> Matches(p, w)
  {
    var q, v := SwapHalves(p), w[16..] + w[..16];
    assert forall i: nat | i < 16 :: q[i] == p[i + 16] && v[i] == w[i + 16] && q[i + 16] == p[i] && v[i + 16] == w[i];
    if Matches(p, w) {
      forall i: nat | i < 32 ensures Agrees(q, v, i) { assert Agrees(p, w, if i < 16 then i + 16 else i - 16); }
    }
    if Matches(q, v) {
      forall i: nat | i < 32 ensures Agrees(p, w, i) { assert Agrees(q, v, if i < 16 then i + 16 else i - 16); }
    }
  }

  /**
   Encoder, memory and tree decoder agree: a 32-bit instruction stored by the encoder is recognised by the
   decoder generated from the same table with the same `swaphw` setting, as an instruction at least as specific.
   */
  lemma StoredInstructionIsDecoded(insts: seq<Inst>, x: Inst, labels: seq<char>, args: Args, swaphw: bool)
    requires WellFormedTable(insts, true) && !HasClash(insts, AllBits())
    requires |x.bitmap| == 32 && Describes(x.bitmap, labels) && forall m | m in labels :: Contiguous(x.bitmap, m)
    requires Inst(x.name, if swaphw then SwapHalves(x.bitmap) else x.bitmap) in insts
    requires FixedCount(x.bitmap) > 0
    ensures var (a, b) := Store(Encode(x.bitmap, labels, args), swaphw);
            var r := Exec(GenerateC(BuildTree(insts, AllBits(), true), HALF, 0), [HalfMsb(a), HalfMsb(b)], 0);
            r.Decoded? && r.inst in insts && Matches(r.inst.bitmap, HalfMsb(a) + HalfMsb(b))
            && FixedCount(r.inst.bitmap) >= FixedCount(x.bitmap)
  {
    var word := Encode(x.bitmap, labels, args);
    var (a, b) := Store(word, swaphw);
    var w := HalfMsb(a) + HalfMsb(b);
    EncodeMatches(x.bitmap, labels, args);
    LoadAfterStore(word, swaphw);
    SwapPreservesMatch(x.bitmap, Msb(word, 32));
    var p := if swaphw then SwapHalves(x.bitmap) else x.bitmap;
    SwapCount(x.bitmap);
    MixedDecoderCorrect(insts, HalfMsb(a), HalfMsb(b));
    InMatching(insts, Inst(x.name, p), w);
    var m := Matching(insts, w);
    var k :| 0 <= k < |m| && m[k] == Inst(x.name, p);
    assert !AllVague(m);
    var r := Exec(GenerateC(BuildTree(insts, AllBits(), true), HALF, 0), [HalfMsb(a), HalfMsb(b)], 0);
    InMatching(insts, r.inst, w);
  }

  lemma {:induction false} InMatching(insts: seq<Inst>, x: Inst, w: Word)
    ensures x in Matching(insts, w) <==> x in insts && Matches(x.bitmap, w)
  {
    if insts != [] {
      InMatching(insts[1..], x, w);
      assert insts == [insts[0]] + insts[1..];
    }
  }

  lemma {:induction false} CountConcat(p: Pattern, q: Pattern)
    ensures FixedCount(p + q) == FixedCount(p) + FixedCount(q)
  {
    if p == [] {
      assert p + q == q;
    } else {
      CountConcat(p[1..], q);
      assert (p + q)[1..] == p[1..] + q;
    }
  }

  lemma SwapCount(p: Pattern)
    requires |p| == 32
    ensures FixedCount(SwapHalves(p)) == FixedCount(p)
  {
    CountConcat(p[16..32], p[0..16]);
    CountConcat(p[0..16], p[16..32]);
    assert p == p[0..16] + p[16..32];
  }
}
