/**
 Conditional fields of PIE tables (`pie/generate_decoder.rb`): `handle_cond_field` replaces an
 instruction whose fields carry `!` or `=` conditions by one plain pattern per admitted value.
 */
module PieConditions {
  import opened Arith
  import opened PieDecoder

  /** `:diff` excludes the listed values, `:eq` admits only them. */
  datatype Cond = Any | Diff(vals: set<nat>) | Eq(vals: set<nat>)

  datatype FieldSpec = FieldSpec(name: char, cond: Cond)

  datatype RawInst = RawInst(name: string, bitmap: Pattern, fields: seq<FieldSpec>)

  predicate Admits(c: Cond, v: nat) {
    match c
    case Any => true
    case Diff(vals) => v !in vals
    case Eq(vals) => v in vals
  }

  /** `get_field_width`. */
  function Width(p: Pattern, l: char): nat {
    if p == [] then 0 else (if p[0] == Field(l) then 1 else 0) + Width(p[1..], l)
  }

  /** The number a word holds in the positions labelled `l`, most significant bit first. */
  function FieldValue(p: Pattern, l: char, w: Word): nat
    requires |p| <= |w|
  {
    if p == [] then 0
    else if p[0] == Field(l) then (if w[0] then Pow2(Width(p[1..], l)) else 0) + FieldValue(p[1..], l, w[1..])
    else FieldValue(p[1..], l, w[1..])
  }

  // ---------- inst_set_field ----------

  function BitOf(v: nat, k: nat): Bit {
    if v / Pow2(k) % 2 == 1 then One else Zero
  }

  function SetField(p: Pattern, l: char, v: nat): (r: Pattern)
    ensures |r| == |p|
  {
    if p == [] then []
    else if p[0] == Field(l) then [BitOf(v, Width(p[1..], l))] + SetField(p[1..], l, v)
    else [p[0]] + SetField(p[1..], l, v)
  }

  /** `inst_set_field`: walks the occurrences of the label and overwrites each in place. */
  method SetFieldInPlace(bitmap: array<Bit>, l: char, width: nat, v: nat)
    requires width == Width(bitmap[..], l)
    modifies bitmap
    ensures bitmap[..] == SetField(old(bitmap[..]), l, v)
  {
    hide BitOf, Pow2, SetField, Width;
    assert bitmap[..] == bitmap[0..];
    var w, i := width, 0;
    ghost var p := bitmap[..];
    while i < bitmap.Length
      invariant 0 <= i <= bitmap.Length
      invariant bitmap[i..] == p[i..]
      invariant w == Width(p[i..], l)
      invariant bitmap[..i] + SetField(p[i..], l, v) == SetField(p, l, v)
    {
      SetFieldStep(p, i, l, v);
      ghost var done := bitmap[..i];
      if bitmap[i] == Field(l) {
        w := w - 1;
        bitmap[i] := BitOf(v, w);
      }
      assert bitmap[..i + 1] == done + [bitmap[i]];
      assert done + ([bitmap[i]] + SetField(p[i + 1..], l, v)) == bitmap[..i + 1] + SetField(p[i + 1..], l, v);
      i := i + 1;
    }
    SetFieldEnd(p[i..], l, v);
    assert bitmap[..i] == bitmap[..];
  }

  lemma SetFieldStep(p: Pattern, i: nat, l: char, v: nat)
    requires i < |p|
    ensures Width(p[i..], l) == Width(p[i + 1..], l) + if p[i] == Field(l) then 1 else 0
    ensures SetField(p[i..], l, v) ==
            [if p[i] == Field(l) then BitOf(v, Width(p[i + 1..], l)) else p[i]] + SetField(p[i + 1..], l, v)
  {
    assert p[i..][1..] == p[i + 1..];
  }

  lemma SetFieldEnd(p: Pattern, l: char, v: nat)
    requires p == []
    ensures SetField(p, l, v) == []
  {
  }

  lemma {:induction false} MatchesCons(p: Pattern, w: Word)
    requires p != [] && |p| <= |w|
    ensures Matches(p, w) <==> Agrees(p, w, 0) && Matches(p[1..], w[1..])
  {
    if Matches(p, w) {
      forall i: nat | i < |p[1..]| ensures Agrees(p[1..], w[1..], i) { assert Agrees(p, w, i + 1); }
    }
    if Agrees(p, w, 0) && Matches(p[1..], w[1..]) {
      forall i: nat | i < |p| ensures Agrees(p, w, i) { assert i > 0 ==> Agrees(p[1..], w[1..], i - 1); }
    }
  }

  lemma MatchesNil(p: Pattern, w: Word)
    requires p == []
    ensures Matches(p, w) && Pow2(0) == 1
  {
  }

  lemma {:induction false} FieldValueBound(p: Pattern, l: char, w: Word)
    requires |p| <= |w|
    ensures FieldValue(p, l, w) < Pow2(Width(p, l))
  {
    if p != [] { FieldValueBound(p[1..], l, w[1..]); }
  }

  /** A pattern with a field set matches exactly the words that hold that value in the field. */
  lemma {:induction false} SetFieldMatches(p: Pattern, l: char, v: nat, w: Word)
    requires |p| <= |w|
    ensures Matches(SetField(p, l, v), w) <==> Matches(p, w) && FieldValue(p, l, w) == v % Pow2(Width(p, l))
  {
    hide Matches, Pow2;
    if p == [] {
      MatchesNil(p, w);
    } else {
      var q := SetField(p, l, v);
      SetFieldMatches(p[1..], l, v, w[1..]);
      MatchesCons(p, w);
      MatchesCons(q, w);
      assert q[1..] == SetField(p[1..], l, v);
      if p[0] == Field(l) {
        var k := Width(p[1..], l);
        ModSplit(v, k);
        FieldValueBound(p[1..], l, w[1..]);
        assert Agrees(q, w, 0) <==> (v / Pow2(k) % 2 == 1) == w[0];
      } else {
        assert q[0] == p[0];
      }
    }
  }

  lemma {:induction false} SetFieldFrames(p: Pattern, l: char, v: nat, l': char, w: Word)
    requires |p| <= |w| && l != l'
    ensures Width(SetField(p, l, v), l') == Width(p, l')
    ensures FieldValue(SetField(p, l, v), l', w) == FieldValue(p, l', w)
  {
    if p != [] {
      SetFieldFrames(p[1..], l, v, l', w[1..]);
      assert SetField(p, l, v)[1..] == SetField(p[1..], l, v);
    }
  }

  // ---------- handle_cond_field ----------

  /**
   The expansion over `fields` in order; `[]` when there is nothing to expand. A field whose condition
   has been expanded carries none afterwards, so the recursion only looks at later fields.
   */
  function Expand(p: Pattern, fields: seq<FieldSpec>): seq<Pattern>
    decreases |fields|, 1, 0
  {
    if fields == [] then []
    else if fields[0].cond == Any then Expand(p, fields[1..])
    else ExpandValues(p, fields, 0)
  }

  function ExpandValues(p: Pattern, fields: seq<FieldSpec>, v: nat): seq<Pattern>
    requires fields != []
    decreases |fields|, 0, Pow2(Width(p, fields[0].name)) - v
  {
    if v >= Pow2(Width(p, fields[0].name)) then []
    else
      (if Admits(fields[0].cond, v) then Expansion(SetField(p, fields[0].name, v), fields[1..]) else [])
      + ExpandValues(p, fields, v + 1)
  }

  /** `new_insts.size > 0 ? new_insts : [inst]`, as both callers of `handle_cond_field` do. */
  function Expansion(p: Pattern, fields: seq<FieldSpec>): (r: seq<Pattern>)
    ensures r != []
    decreases |fields|, 2, 0
  {
    var e := Expand(p, fields);
    if e == [] then [p] else e
  }

  predicate Distinct(fields: seq<FieldSpec>) {
    forall i, j | 0 <= i < j < |fields| :: fields[i].name != fields[j].name
  }

  predicate Satisfiable(c: Cond, width: nat) {
    exists v | 0 <= v < Pow2(width) :: Admits(c, v)
  }

  /** The conditions in order; the first one that admits no value switches itself and all later ones off. */
  predicate Meets(p: Pattern, fields: seq<FieldSpec>, w: Word)
    requires |p| <= |w|
  {
    if fields == [] then true
    else if !Satisfiable(fields[0].cond, Width(p, fields[0].name)) then true
    else Admits(fields[0].cond, FieldValue(p, fields[0].name, w)) && Meets(p, fields[1..], w)
  }

  ghost predicate SomeMatches(ps: seq<Pattern>, w: Word) {
    exists q :: q in ps && Matches(q, w)
  }

  lemma {:induction false} MeetsFrames(p: Pattern, l: char, v: nat, fields: seq<FieldSpec>, w: Word)
    requires |p| <= |w| && forall f | f in fields :: f.name != l
    ensures Meets(SetField(p, l, v), fields, w) == Meets(p, fields, w)
  {
    if fields != [] {
      SetFieldFrames(p, l, v, fields[0].name, w);
      MeetsFrames(p, l, v, fields[1..], w);
    }
  }

  /** The expansion matches exactly the words of the original pattern that meet the conditions in force. */
  lemma {:induction false} ExpansionExact(p: Pattern, fields: seq<FieldSpec>, w: Word)
    requires |p| <= |w| && Distinct(fields)
    ensures SomeMatches(Expansion(p, fields), w) <==> Matches(p, w) && Meets(p, fields, w)
    decreases |fields|, 1, 0
  {
    if fields == [] {
      assert p in [p];
    } else if fields[0].cond == Any {
      ExpansionExact(p, fields[1..], w);
      assert Admits(Any, 0);
      assert Satisfiable(fields[0].cond, Width(p, fields[0].name));
    } else {
      ExpandValuesExact(p, fields, 0, w);
      FieldValueBound(p, fields[0].name, w);
      assert p in [p];
    }
  }

  lemma {:induction false} ExpandValuesExact(p: Pattern, fields: seq<FieldSpec>, v: nat, w: Word)
    requires |p| <= |w| && Distinct(fields) && fields != []
    ensures ExpandValues(p, fields, v) == [] <==>
            forall u | v <= u < Pow2(Width(p, fields[0].name)) :: !Admits(fields[0].cond, u)
    ensures var value := FieldValue(p, fields[0].name, w);
            SomeMatches(ExpandValues(p, fields, v), w) <==>
            Matches(p, w) && value >= v && Admits(fields[0].cond, value) && Meets(p, fields[1..], w)
    decreases |fields|, 0, Pow2(Width(p, fields[0].name)) - v
  {
    var l := fields[0].name;
    FieldValueBound(p, l, w);
    if v < Pow2(Width(p, l)) {
      var rest := ExpandValues(p, fields, v + 1);
      ExpandValuesExact(p, fields, v + 1, w);
      if Admits(fields[0].cond, v) {
        var q := SetField(p, l, v);
        ExpansionExact(q, fields[1..], w);
        SetFieldMatches(p, l, v, w);
        SmallMod(v, Pow2(Width(p, l)));
        MeetsFrames(p, l, v, fields[1..], w);
        SomeMatchesConcat(Expansion(q, fields[1..]), rest, w);
      } else {
        assert [] + rest == rest;
      }
    }
  }

  lemma SomeMatchesConcat(a: seq<Pattern>, b: seq<Pattern>, w: Word)
    ensures SomeMatches(a + b, w) <==> SomeMatches(a, w) || SomeMatches(b, w)
  {
    if SomeMatches(a, w) {
      var q :| q in a && Matches(q, w);
      assert q in a + b;
    }
    if SomeMatches(b, w) {
      var q :| q in b && Matches(q, w);
      assert q in a + b;
    }
  }

  /** With satisfiable conditions only, `Meets` says that every single condition holds. */
  lemma {:induction false} MeetsAll(p: Pattern, fields: seq<FieldSpec>, w: Word)
    requires |p| <= |w|
    requires forall f | f in fields :: Satisfiable(f.cond, Width(p, f.name))
    ensures Meets(p, fields, w) <==> forall f | f in fields :: Admits(f.cond, FieldValue(p, f.name, w))
  {
    if fields != [] {
      MeetsAll(p, fields[1..], w);
      assert fields == [fields[0]] + fields[1..];
    }
  }

  /** A condition that excludes both values of a one-bit field is silently dropped. */
  lemma UnsatisfiableConditionIsIgnored()
    ensures var p := [Field('a')]; var fields := [FieldSpec('a', Diff({0, 1}))];
            && SomeMatches(Expansion(p, fields), [true])
            && !Admits(fields[0].cond, FieldValue(p, 'a', [true]))
  {
    var p := [Field('a')];
    var fields := [FieldSpec('a', Diff({0, 1}))];
    ExpansionExact(p, fields, [true]);
    assert Width(p, 'a') == 1 && Pow2(1) == 2;
    assert p[1..] == [];
    assert FieldValue(p, 'a', [true]) == 1;
  }

  // ---------- generate_decoder ----------

  function Named(name: string, ps: seq<Pattern>): (r: seq<Inst>)
    ensures |r| == |ps| && forall i | 0 <= i < |ps| :: r[i] == Inst(name, ps[i])
  {
    seq(|ps|, i requires 0 <= i < |ps| => Inst(name, ps[i]))
  }

  /** The table handed to `build_tree`. */
  function Flatten(raws: seq<RawInst>): seq<Inst> {
    if raws == [] then [] else Named(raws[0].name, Expansion(raws[0].bitmap, raws[0].fields)) + Flatten(raws[1..])
  }

  predicate RawMatches(x: RawInst, w: Word)
    requires |x.bitmap| <= |w|
  {
    Matches(x.bitmap, w) && Meets(x.bitmap, x.fields, w)
  }

  lemma {:induction false} MatchingMembers(insts: seq<Inst>, w: Word)
    ensures forall x :: x in Matching(insts, w) <==> x in insts && Matches(x.bitmap, w)
  {
    if insts != [] {
      MatchingMembers(insts[1..], w);
      assert insts == [insts[0]] + insts[1..];
    }
  }

  /** The flattened table has a match for `w` under a name exactly when a raw instruction of that name accepts `w`. */
  lemma {:induction false} FlattenExact(raws: seq<RawInst>, name: string, w: Word)
    requires forall x | x in raws :: |x.bitmap| <= |w| && Distinct(x.fields)
    ensures (exists x :: x in Flatten(raws) && x.name == name && Matches(x.bitmap, w)) <==>
            (exists r :: r in raws && r.name == name && RawMatches(r, w))
  {
    if raws != [] {
      var r := raws[0];
      FlattenExact(raws[1..], name, w);
      ExpansionExact(r.bitmap, r.fields, w);
      var ps := Expansion(r.bitmap, r.fields);
      var head := Named(r.name, ps);
      if RawMatches(r, w) {
        var q :| q in ps && Matches(q, w);
        var i :| 0 <= i < |ps| && ps[i] == q;
        assert head[i] in Flatten(raws);
      }
      forall x | x in head && Matches(x.bitmap, w) ensures RawMatches(r, w) && x.name == r.name {
        var i :| 0 <= i < |head| && head[i] == x;
        assert ps[i] in ps;
      }
      assert raws == [raws[0]] + raws[1..];
    }
  }

  /**
   End to end: the generated decoder of a mixed table never returns an instruction whose encoding and
   conditions reject the word, and returns INVALID exactly when no instruction accepts it or when
   several wholly unfixed patterns do.
   */
  lemma DecoderSound(raws: seq<RawInst>, h0: Word, h1: Word)
    requires |h0| == HALF && |h1| == HALF
    requires forall x | x in raws :: Distinct(x.fields) && |x.bitmap| <= WORD
    requires WellFormedTable(Flatten(raws), true) && !HasClash(Flatten(raws), AllBits())
    ensures var r := Exec(GenerateC(BuildTree(Flatten(raws), AllBits(), true), HALF, 0), [h0, h1], 0);
            && (r.Decoded? ==> exists raw :: raw in raws && raw.name == r.inst.name && RawMatches(raw, h0 + h1))
            && (r.Invalid? <==> (forall raw | raw in raws :: !RawMatches(raw, h0 + h1))
                                || AllVague(Matching(Flatten(raws), h0 + h1)))
  {
    var w := h0 + h1;
    var insts := Flatten(raws);
    MixedDecoderCorrect(insts, h0, h1);
    MatchingMembers(insts, w);
    var r := Exec(GenerateC(BuildTree(insts, AllBits(), true), HALF, 0), [h0, h1], 0);
    var m := Matching(insts, w);
    if r.Decoded? {
      assert r.inst in m;
      FlattenExact(raws, r.inst.name, w);
    }
    if m == [] {
      forall raw | raw in raws ensures !RawMatches(raw, w) {
        FlattenExact(raws, raw.name, w);
        assert forall x | x in insts :: !Matches(x.bitmap, w);
      }
    }
  }
}
