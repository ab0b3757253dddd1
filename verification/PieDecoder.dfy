/**
 PIE's decoder generator (`pie/generate_decoder.rb`): a compiler from a table of bit
 patterns to a decision tree, and from the tree to C code that reads halfwords.

 Bit 0 of a pattern or of a word is its most significant bit, as in the Ruby strings.
 A word always has 32 bits; a 16-bit pattern is matched against the first halfword.
 */
module PieDecoder {

  datatype Bit = Zero | One | Field(name: char)

  type Pattern = seq<Bit>
  type Word = seq<bool>

  datatype Inst = Inst(name: string, bitmap: Pattern)

  /** What a decoder returns: `<ARCH>_INVALID` or an instruction of the table. */
  datatype Outcome = Invalid | Decoded(inst: Inst)

  const WORD: nat := 32
  const HALF: nat := 16

  // ---------- Patterns and the reference meaning of a table ----------

  predicate Fixed(p: Pattern, i: nat) {
    i < |p| && !p[i].Field?
  }

  predicate Agrees(p: Pattern, w: Word, i: nat) {
    Fixed(p, i) ==> i < |w| && p[i].One? == w[i]
  }

  predicate Matches(p: Pattern, w: Word) {
    forall i: nat | i < |p| :: Agrees(p, w, i)
  }

  /** The number of fixed bits, Ruby's `bitmap.count("01")`. */
  function FixedCount(p: Pattern): nat {
    if p == [] then 0 else (if p[0].Field? then 0 else 1) + FixedCount(p[1..])
  }

  /** The instructions of the table that match `w`, in table order. */
  function Matching(insts: seq<Inst>, w: Word): seq<Inst> {
    if insts == [] then []
    else (if Matches(insts[0].bitmap, w) then [insts[0]] else []) + Matching(insts[1..], w)
  }

  /** `insts[k]` has the most fixed bits, and every earlier instruction has fewer. */
  predicate IsMostSpecific(insts: seq<Inst>, k: nat) {
    && k < |insts|
    && (forall j: nat | j < |insts| :: FixedCount(insts[j].bitmap) <= FixedCount(insts[k].bitmap))
    && (forall j: nat | j < k :: FixedCount(insts[j].bitmap) < FixedCount(insts[k].bitmap))
  }

  /** Several instructions match and none of them fixes a single bit. */
  predicate AllVague(insts: seq<Inst>) {
    |insts| >= 2 && forall j: nat | j < |insts| :: FixedCount(insts[j].bitmap) == 0
  }

  /** The outcome a user of the table expects, given the matching instructions. */
  ghost predicate IsVerdict(matching: seq<Inst>, r: Outcome) {
    if matching == [] || AllVague(matching) then r == Invalid
    else r.Decoded? && exists k: nat :: IsMostSpecific(matching, k) && r.inst == matching[k]
  }

  // ---------- select_bit ----------

  /** How many instructions fix bit `bit`. */
  function CountFixed(insts: seq<Inst>, bit: nat): nat {
    if insts == [] then 0
    else (if Fixed(insts[0].bitmap, bit) then 1 else 0) + CountFixed(insts[1..], bit)
  }

  /** `r` is the first allowed bit that the most instructions fix, or -1 when none is fixed. */
  predicate IsSelected(insts: seq<Inst>, allowed: set<nat>, r: int) {
    if r < 0 then r == -1 && forall b | b in allowed :: CountFixed(insts, b) == 0
    else
      && r in allowed && CountFixed(insts, r) > 0
      && forall b | b in allowed ::
           CountFixed(insts, b) <= CountFixed(insts, r) && (b < r ==> CountFixed(insts, b) < CountFixed(insts, r))
  }

  /** The part of `s` below `k`. */
  function Below(s: set<nat>, k: nat): set<nat> {
    set b | b in s && b < k
  }

  /** The selection over the allowed bits below `upTo`; `select_bit` is the case `upTo == 32`. */
  function SelectBit(insts: seq<Inst>, allowed: set<nat>, upTo: nat): (r: int)
    ensures IsSelected(insts, Below(allowed, upTo), r)
  {
    if upTo == 0 then -1
    else
      var r := SelectBit(insts, allowed, upTo - 1);
      var bit := upTo - 1;
      if bit in allowed && CountFixed(insts, bit) > (if r < 0 then 0 else CountFixed(insts, r)) then bit else r
  }

  /** `select_bit` as written: a scan that clears one allowed bit at a time. */
  method SelectBitLoop(insts: seq<Inst>, allowed: set<nat>) returns (r: int)
    requires forall b | b in allowed :: b < WORD
    ensures IsSelected(insts, allowed, r)
    ensures r == SelectBit(insts, allowed, WORD)
  {
    var bit := 0;
    r := -1;
    var selectedCount := 0;
    var left := allowed;
    while left != {}
      invariant 0 <= bit <= WORD
      invariant left == allowed - Below(allowed, bit)
      invariant r == SelectBit(insts, allowed, bit)
      invariant selectedCount == if r < 0 then 0 else CountFixed(insts, r)
      decreases WORD - bit
    {
      if bit in left {
        var count, k := 0, 0;
        while k < |insts|
          invariant 0 <= k <= |insts|
          invariant count + CountFixed(insts[k..], bit) == CountFixed(insts, bit)
        {
          if Fixed(insts[k].bitmap, bit) { count := count + 1; }
          k := k + 1;
        }
        if count > selectedCount {
          r, selectedCount := bit, count;
        }
      }
      left := left - {bit};
      bit := bit + 1;
    }
    forall b | b in allowed ensures b in Below(allowed, bit) {
      assert b !in left;
    }
    assert Below(allowed, bit) == allowed;
    SelectSaturates(insts, allowed, bit, WORD);
    assert Below(allowed, WORD) == allowed;
  }

  lemma {:induction false} SelectSaturates(insts: seq<Inst>, allowed: set<nat>, lo: nat, hi: nat)
    requires lo <= hi && Below(allowed, lo) == allowed
    ensures SelectBit(insts, allowed, lo) == SelectBit(insts, allowed, hi)
  {
    if lo < hi {
      SelectSaturates(insts, allowed, lo, hi - 1);
      assert hi - 1 in allowed ==> hi - 1 in Below(allowed, lo);
    }
  }

  lemma {:induction false} CountFixedZero(insts: seq<Inst>, bit: nat)
    ensures CountFixed(insts, bit) == 0 <==> forall k | 0 <= k < |insts| :: !Fixed(insts[k].bitmap, bit)
  {
    if insts != [] {
      CountFixedZero(insts[1..], bit);
      assert insts == [insts[0]] + insts[1..];
    }
  }

  // ---------- build_tree ----------

  /**
   `Node` without an instruction tests bit `depth`; a `nil` child is `Nil`. `Abort` stands for the
   exception raised when bit `depth` lies past the end of a 16-bit pattern.
   */
  datatype Tree = Nil | Leaf(inst: Inst) | Node(depth: int, left: Tree, right: Tree) | Abort

  /** Instructions that can still match when bit `bit` is `value`. */
  function Side(insts: seq<Inst>, bit: nat, value: bool): (r: seq<Inst>)
    requires forall x | x in insts :: bit < |x.bitmap|
    ensures forall x :: x in r <==> x in insts && (x.bitmap[bit].Field? || x.bitmap[bit].One? == value)
    ensures |r| <= |insts|
  {
    if insts == [] then []
    else
      var x := insts[0];
      (if x.bitmap[bit].Field? || x.bitmap[bit].One? == value then [x] else []) + Side(insts[1..], bit, value)
  }

  /** The last loop of `build_tree`: the first instruction with the most (and at least one) fixed bits. */
  function MostSpecific(insts: seq<Inst>): Outcome {
    if insts == [] then Invalid
    else
      var prefix := MostSpecific(insts[..|insts| - 1]);
      var last := insts[|insts| - 1];
      if FixedCount(last.bitmap) > (if prefix.Invalid? then 0 else FixedCount(prefix.inst.bitmap))
      then Decoded(last) else prefix
  }

  function ChooseBit(insts: seq<Inst>, remaining: set<nat>, varLen: bool): int {
    if varLen then
      var first := SelectBit(insts, Below(remaining, HALF), WORD);
      if first >= 0 then first else SelectBit(insts, remaining - Below(remaining, HALF), WORD)
    else SelectBit(insts, remaining, WORD)
  }

  predicate NoneFixed(p: Pattern, remaining: set<nat>) {
    forall b | b in remaining :: !Fixed(p, b)
  }

  lemma ChooseBitSelects(insts: seq<Inst>, remaining: set<nat>, varLen: bool)
    requires forall b | b in remaining :: b < WORD
    ensures var bit := ChooseBit(insts, remaining, varLen);
            if bit < 0 then forall x | x in insts :: NoneFixed(x.bitmap, remaining)
            else
              && bit in remaining && CountFixed(insts, bit) > 0
              && (varLen && bit >= HALF ==> forall x | x in insts :: NoneFixed(x.bitmap, Below(remaining, HALF)))
  {
    var bit := ChooseBit(insts, remaining, varLen);
    var low := Below(remaining, HALF);
    assert Below(low, WORD) == low;
    assert Below(remaining, WORD) == remaining;
    assert Below(remaining - low, WORD) == remaining - low;
    forall b | b in remaining ensures CountFixed(insts, b) == 0 <==> forall k | 0 <= k < |insts| :: !Fixed(insts[k].bitmap, b) {
      CountFixedZero(insts, b);
    }
    if bit < 0 {
      forall x, b | x in insts && b in remaining ensures !Fixed(x.bitmap, b) {
        assert CountFixed(insts, b) == 0 by { if varLen { assert b in low || b in remaining - low; } }
      }
    } else if varLen && bit >= HALF {
      forall x, b | x in insts && b in low ensures !Fixed(x.bitmap, b) {
        assert CountFixed(insts, b) == 0;
      }
    }
  }

  function BuildTree(insts: seq<Inst>, remaining: set<nat>, varLen: bool): Tree
    requires forall b | b in remaining :: b < WORD
    decreases |remaining|
  {
    if insts == [] then Nil
    else if |insts| == 1 && NoneFixed(insts[0].bitmap, remaining) then Leaf(insts[0])
    else
      var bit := ChooseBit(insts, remaining, varLen);
      if bit < 0 then
        (match MostSpecific(insts)
         case Invalid => Node(-1, Nil, Nil)
         case Decoded(x) => Leaf(x))
      else if exists x | x in insts :: bit >= |x.bitmap| then Abort
      else
        ChooseBitSelects(insts, remaining, varLen);
        Node(bit, BuildTree(Side(insts, bit, false), remaining - {bit}, varLen),
                  BuildTree(Side(insts, bit, true), remaining - {bit}, varLen))
  }

  /** Walking the tree with a word. The node of depth -1 has two `nil` children. */
  function Walk(t: Tree, w: Word): Outcome {
    match t
    case Nil => Invalid
    case Leaf(x) => Decoded(x)
    case Abort => Invalid
    case Node(depth, left, right) => if 0 <= depth < |w| && w[depth] then Walk(right, w) else Walk(left, w)
  }

  predicate HasAbort(t: Tree) {
    match t
    case Abort => true
    case Node(_, left, right) => HasAbort(left) || HasAbort(right)
    case _ => false
  }

  // ---------- Correctness of the tree ----------

  /** Every fixed bit outside `remaining` already agrees with `w`. */
  ghost predicate Consistent(insts: seq<Inst>, remaining: set<nat>, w: Word) {
    forall x: Inst, i: nat | x in insts && i !in remaining :: Agrees(x.bitmap, w, i)
  }

  lemma {:induction false} MatchingSide(insts: seq<Inst>, bit: nat, w: Word)
    requires |w| == WORD && bit < WORD
    requires forall x | x in insts :: bit < |x.bitmap|
    ensures Matching(Side(insts, bit, w[bit]), w) == Matching(insts, w)
  {
    if insts != [] {
      MatchingSide(insts[1..], bit, w);
      var x := insts[0];
      var rest := Side(insts[1..], bit, w[bit]);
      if x.bitmap[bit].Field? || x.bitmap[bit].One? == w[bit] {
        assert ([x] + rest)[1..] == rest;
      } else {
        assert !Agrees(x.bitmap, w, bit);
        assert [] + rest == rest;
      }
    }
  }

  lemma {:induction false} MatchingAll(insts: seq<Inst>, w: Word)
    requires forall x | x in insts :: Matches(x.bitmap, w)
    ensures Matching(insts, w) == insts
  {
    if insts != [] {
      MatchingAll(insts[1..], w);
    }
  }

  lemma {:induction false} MostSpecificIsBest(insts: seq<Inst>)
    ensures match MostSpecific(insts)
            case Invalid => forall j: nat | j < |insts| :: FixedCount(insts[j].bitmap) == 0
            case Decoded(x) => FixedCount(x.bitmap) > 0 && exists k: nat :: IsMostSpecific(insts, k) && x == insts[k]
  {
    hide FixedCount;
    if insts != [] {
      var n := |insts| - 1;
      var prefix := insts[..n];
      MostSpecificIsBest(prefix);
      NewBest(insts, n);
      if MostSpecific(prefix).Decoded? {
        var k: nat :| IsMostSpecific(prefix, k) && MostSpecific(prefix).inst == prefix[k];
        NewBest(insts, k);
      }
    }
  }

  /** How the last instruction compares with the best of the earlier ones. */
  lemma NewBest(insts: seq<Inst>, k: nat)
    requires insts != [] && k < |insts|
    ensures var n := |insts| - 1;
            var last, prefix := FixedCount(insts[n].bitmap), insts[..n];
            && (k < n && IsMostSpecific(prefix, k) && last <= FixedCount(prefix[k].bitmap) ==> IsMostSpecific(insts, k))
            && (k < n && IsMostSpecific(prefix, k) && last > FixedCount(prefix[k].bitmap) ==> IsMostSpecific(insts, n))
            && ((forall j: nat | j < n :: FixedCount(prefix[j].bitmap) == 0) && last > 0 ==> IsMostSpecific(insts, n))
  {
    hide FixedCount;
    var prefix := insts[..|insts| - 1];
    assert forall j: nat | j < |prefix| :: insts[j] == prefix[j];
  }

  lemma {:induction false} WalkIsVerdict(insts: seq<Inst>, remaining: set<nat>, varLen: bool, w: Word)
    requires forall b | b in remaining :: b < WORD
    requires |w| == WORD && Consistent(insts, remaining, w)
    requires !HasAbort(BuildTree(insts, remaining, varLen))
    ensures IsVerdict(Matching(insts, w), Walk(BuildTree(insts, remaining, varLen), w))
    decreases |remaining|
  {
    if insts == [] {
    } else if |insts| == 1 && NoneFixed(insts[0].bitmap, remaining) {
      SettledMatch(insts, remaining, w);
      assert IsMostSpecific(insts, 0);
    } else {
      ChooseBitSelects(insts, remaining, varLen);
      var bit := ChooseBit(insts, remaining, varLen);
      if bit < 0 {
        SettledMatch(insts, remaining, w);
        SettledVerdict(insts);
      } else {
        MatchingSide(insts, bit, w);
        WalkIsVerdict(Side(insts, bit, w[bit]), remaining - {bit}, varLen, w);
      }
    }
  }

  lemma SettledVerdict(insts: seq<Inst>)
    requires |insts| >= 2
    ensures IsVerdict(insts, MostSpecific(insts))
  {
    MostSpecificIsBest(insts);
  }

  lemma SettledMatch(insts: seq<Inst>, remaining: set<nat>, w: Word)
    requires Consistent(insts, remaining, w)
    requires forall x | x in insts :: NoneFixed(x.bitmap, remaining)
    ensures Matching(insts, w) == insts
  {
    forall x, i: nat | x in insts && i < |x.bitmap| ensures Agrees(x.bitmap, w, i) {
    }
    MatchingAll(insts, w);
  }

  // ---------- Exactly when generation fails ----------

  /** A 16-bit and a 32-bit pattern that no bit of the first halfword separates. */
  predicate Compatible(p: Pattern, q: Pattern) {
    forall i: nat | i < HALF && Fixed(p, i) && Fixed(q, i) :: p[i] == q[i]
  }

  predicate Clash(p: Pattern, q: Pattern, remaining: set<nat>) {
    |p| == HALF && |q| == WORD && Compatible(p, q) && exists b :: b in remaining && b >= HALF && Fixed(q, b)
  }

  predicate HasClash(insts: seq<Inst>, remaining: set<nat>) {
    exists x, y :: x in insts && y in insts && Clash(x.bitmap, y.bitmap, remaining)
  }

  lemma {:induction false} AbortMeansClash(insts: seq<Inst>, remaining: set<nat>, w: Word)
    requires forall b | b in remaining :: b < WORD
    requires forall x | x in insts :: |x.bitmap| == HALF || |x.bitmap| == WORD
    requires |w| == WORD && Consistent(insts, remaining, w)
    requires HasAbort(BuildTree(insts, remaining, true))
    ensures HasClash(insts, remaining)
    decreases |remaining|
  {
    ChooseBitSelects(insts, remaining, true);
    var bit := ChooseBit(insts, remaining, true);
    if exists x | x in insts :: bit >= |x.bitmap| {
      var x :| x in insts && bit >= |x.bitmap|;
      CountFixedZero(insts, bit);
      var k :| 0 <= k < |insts| && Fixed(insts[k].bitmap, bit);
      var y := insts[k];
      forall i: nat | i < HALF && Fixed(x.bitmap, i) && Fixed(y.bitmap, i) ensures x.bitmap[i] == y.bitmap[i] {
        assert i in remaining ==> i in Below(remaining, HALF);
        assert Agrees(x.bitmap, w, i) && Agrees(y.bitmap, w, i);
      }
      assert Clash(x.bitmap, y.bitmap, remaining);
    } else {
      var value := !HasAbort(BuildTree(Side(insts, bit, false), remaining - {bit}, true));
      var side := Side(insts, bit, value);
      var w' := w[bit := value];
      forall x, i: nat | x in side && i !in remaining - {bit} ensures Agrees(x.bitmap, w', i) {
        if i != bit { assert Agrees(x.bitmap, w, i); }
      }
      AbortMeansClash(side, remaining - {bit}, w');
      var x, y :| x in side && y in side && Clash(x.bitmap, y.bitmap, remaining - {bit});
      var b :| b in remaining - {bit} && b >= HALF && Fixed(y.bitmap, b);
      assert b in remaining;
      assert Clash(x.bitmap, y.bitmap, remaining);
    }
  }

  lemma {:induction false} ClashMeansAbort(insts: seq<Inst>, remaining: set<nat>)
    requires forall b | b in remaining :: b < WORD
    requires HasClash(insts, remaining)
    ensures HasAbort(BuildTree(insts, remaining, true))
    decreases |remaining|
  {
    hide ChooseBit, MostSpecific, CountFixed, Side, Below;
    var x, y :| x in insts && y in insts && Clash(x.bitmap, y.bitmap, remaining);
    var b :| b in remaining && b >= HALF && Fixed(y.bitmap, b);
    var i, j :| 0 <= i < |insts| && 0 <= j < |insts| && insts[i] == x && insts[j] == y;
    assert i != j;
    ChooseBitSelects(insts, remaining, true);
    var bit := ChooseBit(insts, remaining, true);
    assert !NoneFixed(y.bitmap, remaining);
    if !(exists z | z in insts :: bit >= |z.bitmap|) {
      assert bit < HALF;
      var value := if Fixed(x.bitmap, bit) then x.bitmap[bit].One? else y.bitmap[bit].One?;
      var side := Side(insts, bit, value);
      assert x in side && y in side;
      assert b in remaining - {bit};
      assert Clash(x.bitmap, y.bitmap, remaining - {bit});
      ClashMeansAbort(side, remaining - {bit});
    }
  }

  lemma {:induction false} FixedLengthNeverAborts(insts: seq<Inst>, remaining: set<nat>, varLen: bool)
    requires forall b | b in remaining :: b < WORD
    requires forall x | x in insts :: |x.bitmap| == WORD
    ensures !HasAbort(BuildTree(insts, remaining, varLen))
    decreases |remaining|
  {
    if insts != [] && !(|insts| == 1 && NoneFixed(insts[0].bitmap, remaining)) {
      ChooseBitSelects(insts, remaining, varLen);
      var bit := ChooseBit(insts, remaining, varLen);
      if bit >= 0 {
        FixedLengthNeverAborts(Side(insts, bit, false), remaining - {bit}, varLen);
        FixedLengthNeverAborts(Side(insts, bit, true), remaining - {bit}, varLen);
      }
    }
  }

  // ---------- generate_c and the code it prints ----------

  /**
   The printed C: `Test` first executes `instruction = *(++address)` when `advance` is set, then
   branches on `instruction & (1 << shift)`.
   */
  datatype Code = Return(outcome: Outcome) | Test(advance: bool, shift: int, clear: Code, isSet: Code)

  function GenerateC(t: Tree, width: nat, sub: nat): Code {
    match t
    case Nil => Return(Invalid)
    case Leaf(x) => Return(Decoded(x))
    case Abort => Return(Invalid)
    case Node(depth, left, right) =>
      var advance := depth - sub >= width;
      var sub' := if advance then sub + width else sub;
      Test(advance, width - (depth - sub') - 1, GenerateC(left, width, sub'), GenerateC(right, width, sub'))
  }

  /** Bit `1 << shift` of a loaded unit; bits past its top are zero. */
  predicate TestBit(unit: Word, shift: int) {
    0 <= shift < |unit| && unit[|unit| - 1 - shift]
  }

  /** Executes the code over the units at `address`; `None`-like `Invalid` is never confused with a read past the end. */
  function Exec(c: Code, units: seq<Word>, pos: nat): Outcome {
    match c
    case Return(r) => r
    case Test(advance, shift, clear, isSet) =>
      var pos' := if advance then pos + 1 else pos;
      if pos' < |units| && TestBit(units[pos'], shift) then Exec(isSet, units, pos') else Exec(clear, units, pos')
  }

  /** Units are advanced at most `budget` more times, and every test addresses a bit of the loaded unit. */
  predicate Phased(c: Code, width: nat, budget: nat) {
    match c
    case Return(_) => true
    case Test(advance, shift, clear, isSet) =>
      && (advance ==> budget > 0)
      && (0 <= shift < width || (clear.Return? && isSet.Return? && clear == isSet))
      && Phased(clear, width, if advance && budget > 0 then budget - 1 else budget)
      && Phased(isSet, width, if advance && budget > 0 then budget - 1 else budget)
  }

  /** Once a second-halfword bit has been tested only second-halfword bits follow. */
  predicate Ordered(t: Tree, second: bool) {
    match t
    case Node(depth, left, right) =>
      if depth < 0 then depth == -1 && left == Nil && right == Nil
      else
        && depth < WORD && (second ==> depth >= HALF)
        && Ordered(left, second || depth >= HALF) && Ordered(right, second || depth >= HALF)
    case _ => true
  }

  lemma {:induction false} BuildTreeOrdered(insts: seq<Inst>, remaining: set<nat>, second: bool)
    requires forall b | b in remaining :: b < WORD
    requires second ==> forall x | x in insts :: NoneFixed(x.bitmap, Below(remaining, HALF))
    ensures Ordered(BuildTree(insts, remaining, true), second)
    decreases |remaining|
  {
    if insts != [] && !(|insts| == 1 && NoneFixed(insts[0].bitmap, remaining)) {
      ChooseBitSelects(insts, remaining, true);
      var bit := ChooseBit(insts, remaining, true);
      if bit >= 0 && !(exists x | x in insts :: bit >= |x.bitmap|) {
        if second && bit < HALF {
          CountFixedZero(insts, bit);
          assert bit in Below(remaining, HALF);
        }
        var next := second || bit >= HALF;
        var rest := remaining - {bit};
        assert Below(rest, HALF) <= Below(remaining, HALF);
        BuildTreeOrdered(Side(insts, bit, false), rest, next);
        BuildTreeOrdered(Side(insts, bit, true), rest, next);
      }
    }
  }

  lemma {:induction false} CodeFollowsTree(t: Tree, second: bool, h0: Word, h1: Word)
    requires Ordered(t, second) && |h0| == HALF && |h1| == HALF
    ensures var c := GenerateC(t, HALF, if second then HALF else 0);
            && Phased(c, HALF, if second then 0 else 1)
            && Exec(c, [h0, h1], if second then 1 else 0) == Walk(t, h0 + h1)
  {
    if t.Node? && t.depth >= 0 {
      var next := second || t.depth >= HALF;
      CodeFollowsTree(t.left, next, h0, h1);
      CodeFollowsTree(t.right, next, h0, h1);
    }
  }

  predicate FullDepth(t: Tree) {
    t.Node? ==>
      if t.depth < 0 then t.depth == -1 && t.left == Nil && t.right == Nil
      else t.depth < WORD && FullDepth(t.left) && FullDepth(t.right)
  }

  lemma {:induction false} BuildTreeFullDepth(insts: seq<Inst>, remaining: set<nat>, varLen: bool)
    requires forall b | b in remaining :: b < WORD
    ensures FullDepth(BuildTree(insts, remaining, varLen))
    decreases |remaining|
  {
    if insts != [] && !(|insts| == 1 && NoneFixed(insts[0].bitmap, remaining)) {
      ChooseBitSelects(insts, remaining, varLen);
      var bit := ChooseBit(insts, remaining, varLen);
      if bit >= 0 && !(exists x | x in insts :: bit >= |x.bitmap|) {
        BuildTreeFullDepth(Side(insts, bit, false), remaining - {bit}, varLen);
        BuildTreeFullDepth(Side(insts, bit, true), remaining - {bit}, varLen);
      }
    }
  }

  lemma {:induction false} WideCodeFollowsTree(t: Tree, w: Word)
    requires FullDepth(t) && |w| == WORD
    ensures Phased(GenerateC(t, WORD, 0), WORD, 0)
    ensures Exec(GenerateC(t, WORD, 0), [w], 0) == Walk(t, w)
  {
    if t.Node? && t.depth >= 0 {
      WideCodeFollowsTree(t.left, w);
      WideCodeFollowsTree(t.right, w);
    }
  }

  // ---------- The generator as a whole ----------

  predicate IsBitIndex(b: nat) {
    b < WORD
  }

  function AllBits(): set<nat> {
    set b: nat | b < WORD && IsBitIndex(b)
  }

  /** Tables `generate_decoder` supports: 32-bit patterns only, or 16- and 32-bit patterns mixed. */
  predicate WellFormedTable(insts: seq<Inst>, varLen: bool) {
    forall x | x in insts :: |x.bitmap| == WORD || (varLen && |x.bitmap| == HALF)
  }

  lemma GenerationFailsIff(insts: seq<Inst>, varLen: bool)
    requires WellFormedTable(insts, varLen)
    ensures HasAbort(BuildTree(insts, AllBits(), varLen)) <==> varLen && HasClash(insts, AllBits())
  {
    if varLen {
      var w := seq(WORD, _ => false);
      if HasAbort(BuildTree(insts, AllBits(), varLen)) { AbortMeansClash(insts, AllBits(), w); }
      if HasClash(insts, AllBits()) { ClashMeansAbort(insts, AllBits()); }
    } else {
      FixedLengthNeverAborts(insts, AllBits(), varLen);
    }
  }

  /** A compressed instruction whose halfword can also start a longer one: generation crashes. */
  lemma ClashingTableAborts()
    ensures var short := Inst("short", seq(HALF, _ => Field('a')));
            var long := Inst("long", seq(HALF, _ => Field('a')) + seq(HALF, _ => One));
            WellFormedTable([short, long], true) && HasAbort(BuildTree([short, long], AllBits(), true))
  {
    var short := Inst("short", seq(HALF, _ => Field('a')));
    var long := Inst("long", seq(HALF, _ => Field('a')) + seq(HALF, _ => One));
    assert IsBitIndex(HALF) && HALF in AllBits() && Fixed(long.bitmap, HALF);
    assert Clash(short.bitmap, long.bitmap, AllBits());
    GenerationFailsIff([short, long], true);
  }

  /** Decoder of a mixed 16/32-bit table: two halfwords are read, the second one at most once. */
  lemma MixedDecoderCorrect(insts: seq<Inst>, h0: Word, h1: Word)
    requires WellFormedTable(insts, true) && !HasClash(insts, AllBits())
    requires |h0| == HALF && |h1| == HALF
    ensures var c := GenerateC(BuildTree(insts, AllBits(), true), HALF, 0);
            Phased(c, HALF, 1) && IsVerdict(Matching(insts, h0 + h1), Exec(c, [h0, h1], 0))
  {
    GenerationFailsIff(insts, true);
    WalkIsVerdict(insts, AllBits(), true, h0 + h1);
    BuildTreeOrdered(insts, AllBits(), false);
    CodeFollowsTree(BuildTree(insts, AllBits(), true), false, h0, h1);
  }

  /** Decoder of a fixed 32-bit table: one word is read and `address` never advances. */
  lemma FixedDecoderCorrect(insts: seq<Inst>, w: Word)
    requires WellFormedTable(insts, false) && |w| == WORD
    ensures var c := GenerateC(BuildTree(insts, AllBits(), false), WORD, 0);
            Phased(c, WORD, 0) && IsVerdict(Matching(insts, w), Exec(c, [w], 0))
  {
    GenerationFailsIff(insts, false);
    WalkIsVerdict(insts, AllBits(), false, w);
    BuildTreeFullDepth(insts, AllBits(), false);
    WideCodeFollowsTree(BuildTree(insts, AllBits(), false), w);
  }
}
