/** The record comparator (`MaterialComparer`): hard disqualifiers that yield
    the sentinel -1, and a penalty score for softer differences. */
module Comparisons {
  import opened Wrappers
  import opened Materials
  import opened Texcoords
  import Seqs

  // ---------------------------------------------------------------------
  // Flag words

  /** Flags whose mismatch disqualifies: EnableVertColors (4), EnableLight
      (7), EnableLight2 (11), OpaqueAlpha2 (13), HasAttributes (16),
      HasOutline (17), Bit18 and Bit30. */
  const VetoBits: seq<nat> := [4, 7, 11, 13, 16, 17, 18, 30]

  /** Flags whose mismatch costs a point: Bit0 .. Bit3, OpaqueAlpha1 (5),
      Bit6, Bit8 .. Bit10, ReceiveShadow (14), CastShadow (15), DisableBloom
      (19), Bit29 and Bit31. PurpleWireframe (12) and the nine texture-map
      presence flags (20 .. 28) are not compared. */
  const ScoredBits: seq<nat> := [0, 1, 2, 3, 5, 6, 8, 9, 10, 14, 15, 19, 29, 31]

  datatype FlagRole = Scored | Veto | Ignored

  function Role(bit: nat): FlagRole {
    if bit in VetoBits then Veto else if bit in ScoredBits then Scored else Ignored
  }

  predicate Differs(a: bv32, b: bv32, bit: nat) {
    Bit(a, bit) != Bit(b, bit)
  }

  /** The two words disagree on a disqualifying flag. */
  predicate FlagVeto(a: bv32, b: bv32) {
    exists bit :: bit in VetoBits && Differs(a, b, bit)
  }

  /** The number of scored flags on which the two words disagree. */
  function FlagScore(a: bv32, b: bv32): nat {
    |set bit | bit in ScoredBits && Differs(a, b, bit)|
  }

  function DifferingFrom(a: bv32, b: bv32, role: FlagRole, from: nat): set<nat> {
    set i: nat | from <= i < 32 && Role(i) == role && Differs(a, b, i)
  }

  /** Visits bits `bit` .. 31 in ascending order, as the comparator does,
      returning -1 at the first differing disqualifying bit and otherwise
      `points` plus the number of differing scored bits. */
  function ScanFlags(a: bv32, b: bv32, bit: nat, points: nat): (r: int)
    requires bit <= 32
    ensures r == -1 <==> exists i :: bit <= i < 32 && Role(i) == Veto && Differs(a, b, i)
    ensures r != -1 ==> r == points + |DifferingFrom(a, b, Scored, bit)|
    decreases 32 - bit
  {
    if bit == 32 then
      assert DifferingFrom(a, b, Scored, bit) == {};
      points
    else
      var differs := Differs(a, b, bit);
      DifferingFromStep(a, b, bit);
      match Role(bit)
      case Veto => if differs then -1 else ScanFlags(a, b, bit + 1, points)
      case Scored => ScanFlags(a, b, bit + 1, points + (if differs then 1 else 0))
      case Ignored => ScanFlags(a, b, bit + 1, points)
  }

  lemma DifferingFromStep(a: bv32, b: bv32, bit: nat)
    requires bit < 32
    ensures DifferingFrom(a, b, Scored, bit)
         == DifferingFrom(a, b, Scored, bit + 1) + (if Role(bit) == Scored && Differs(a, b, bit) then {bit} else {})
  {
  }

  /** The bit lists assign the roles `Role` reports. */
  lemma ListedBitRoles()
    ensures forall bit :: bit in VetoBits ==> bit < 32 && Role(bit) == Veto
    ensures forall bit :: bit in ScoredBits ==> bit < 32 && Role(bit) == Scored
  {
  }

  /** The scan's notions of veto and score agree with the declarative ones. */
  lemma ScanAgreesWithLists(a: bv32, b: bv32)
    ensures FlagVeto(a, b) <==> exists i :: 0 <= i < 32 && Role(i) == Veto && Differs(a, b, i)
    ensures |DifferingFrom(a, b, Scored, 0)| == FlagScore(a, b)
  {
    ListedBitRoles();
    assert DifferingFrom(a, b, Scored, 0) == set bit | bit in ScoredBits && Differs(a, b, bit);
  }

  /** `CompareMaterialFlags`: -1 when a disqualifying flag differs, else the
      number of differing scored flags (equal words short-cut to 0). */
  function CompareMaterialFlags(a: bv32, b: bv32): (r: int)
    ensures r == -1 <==> FlagVeto(a, b)
    ensures r != -1 ==> r == FlagScore(a, b)
    ensures -1 <= r <= 14
  {
    ScanAgreesWithLists(a, b);
    FlagScoreAtMost14(a, b);
    if a == b then
      assert (set bit | bit in ScoredBits && Differs(a, b, bit)) == {};
      0
    else
      ScanFlags(a, b, 0, 0)
  }

  lemma FlagScoreAtMost14(a: bv32, b: bv32)
    ensures FlagScore(a, b) <= 14
  {
    var all := Seqs.Elements(ScoredBits);
    var differing := set bit | bit in ScoredBits && Differs(a, b, bit);
    Seqs.ElementsSize(ScoredBits);
    assert |ScoredBits| == 14;
    assert |all| <= 14;
    Seqs.SubsetSize(differing, all);
    assert FlagScore(a, b) == |differing|;
  }

  /** Equal words compare as 0. */
  lemma FlagsEqualScoreZero(a: bv32)
    ensures CompareMaterialFlags(a, a) == 0
  {
  }

  /** Flag comparison is symmetric. */
  lemma FlagsSymmetric(a: bv32, b: bv32)
    ensures CompareMaterialFlags(a, b) == CompareMaterialFlags(b, a)
  {
    assert (set bit | bit in ScoredBits && Differs(a, b, bit)) == (set bit | bit in ScoredBits && Differs(b, a, bit));
  }

  /** PurpleWireframe and the texture-map presence flags never affect the
      flag comparison. */
  lemma IgnoredFlagsIrrelevant(a: bv32, a': bv32, b: bv32)
    requires forall i :: (i in VetoBits || i in ScoredBits) ==> Bit(a, i) == Bit(a', i)
    ensures CompareMaterialFlags(a, b) == CompareMaterialFlags(a', b)
  {
    forall bit | bit in VetoBits
      ensures Differs(a, b, bit) == Differs(a', b, bit)
    {
      assert Bit(a, bit) == Bit(a', bit);
    }
    forall bit | bit in ScoredBits
      ensures Differs(a, b, bit) == Differs(a', b, bit)
    {
      assert Bit(a, bit) == Bit(a', bit);
    }
    assert FlagVeto(a, b) == FlagVeto(a', b);
    assert (set bit | bit in ScoredBits && Differs(a, b, bit)) == (set bit | bit in ScoredBits && Differs(a', b, bit));
  }

  /** `AreMatFlagsEqual`: the words agree on all 32 bits, so the ignored and
      unnamed bits count here although the flag comparator skips them. */
  function AreMatFlagsEqual(a: bv32, b: bv32): (r: bool)
    ensures r <==> forall k :: 0 <= k < 32 ==> Bit(a, k) == Bit(b, k)
    ensures r ==> CompareMaterialFlags(a, b) == 0
  {
    BitsDetermineWord(a, b);
    a == b
  }

  /** Words that differ only in bit 12 score 0 in the flag comparator, yet
      are not equal flag words. */
  lemma FlagEqualityStricterThanScore()
    ensures CompareMaterialFlags(0, 0x1000) == 0
    ensures !AreMatFlagsEqual(0, 0x1000)
  {
    IgnoredFlagsIrrelevant(0, 0x1000, 0);
    FlagsEqualScoreZero(0);
  }

  // ---------------------------------------------------------------------
  // Colours

  /** `AreColorsEqual`: all four channels agree. */
  function AreColorsEqual(a: Color, b: Color): (r: bool)
    ensures r <==> a == b
  {
    a.x == b.x && a.y == b.y && a.z == b.z && a.w == b.w
  }

  // ---------------------------------------------------------------------
  // Attribute lists

  /** Every kind present in `xs` is present in `ys`. */
  predicate KindsCovered(xs: seq<Attribute>, ys: seq<Attribute>) {
    forall x :: x in xs ==> exists y :: y in ys && y.kind == x.kind
  }

  predicate Type1FieldsAgree(x: Attribute, y: Attribute) {
    x.rawFlags == y.rawFlags && x.type1Flags == y.type1Flags && x.field1C == y.field1C && x.field20 == y.field20
  }

  /** In strict mode every `Type1` block of `xs` agrees with every `Type1`
      block of `ys`; otherwise no constraint. */
  predicate Type1BlocksAgree(xs: seq<Attribute>, ys: seq<Attribute>, strict: bool) {
    strict ==> forall x, y :: x in xs && y in ys && x.kind == Type1 && y.kind == Type1 ==> Type1FieldsAgree(x, y)
  }

  function KindPresent(kind: AttributeKind, ys: seq<Attribute>): (r: bool)
    ensures r <==> exists y :: y in ys && y.kind == kind
    decreases |ys|
  {
    if |ys| == 0 then false
    else if ys[0].kind == kind then true
    else
      assert forall y :: y in ys ==> y == ys[0] || y in ys[1..];
      KindPresent(kind, ys[1..])
  }

  /** The first loop of `AreAttributesEqual`. */
  function EveryKindPresent(xs: seq<Attribute>, ys: seq<Attribute>): (r: bool)
    ensures r <==> KindsCovered(xs, ys)
    decreases |xs|
  {
    if |xs| == 0 then true
    else if !KindPresent(xs[0].kind, ys) then false
    else
      assert forall x :: x in xs ==> x == xs[0] || x in xs[1..];
      EveryKindPresent(xs[1..], ys)
  }

  function Type1AgreesWithAll(x: Attribute, ys: seq<Attribute>, strict: bool): (r: bool)
    requires x.kind == Type1
    ensures r <==> (strict ==> forall y :: y in ys && y.kind == Type1 ==> Type1FieldsAgree(x, y))
    decreases |ys|
  {
    if |ys| == 0 then true
    else if ys[0].kind == Type1 && !Type1FieldsAgree(x, ys[0]) && strict then false
    else
      assert forall y :: y in ys ==> y == ys[0] || y in ys[1..];
      Type1AgreesWithAll(x, ys[1..], strict)
  }

  /** The second loop of `AreAttributesEqual`. */
  function Type1Consistent(xs: seq<Attribute>, ys: seq<Attribute>, strict: bool): (r: bool)
    ensures r <==> Type1BlocksAgree(xs, ys, strict)
    decreases |xs|
  {
    if |xs| == 0 then true
    else if xs[0].kind == Type1 && !Type1AgreesWithAll(xs[0], ys, strict) then false
    else
      assert forall x :: x in xs ==> x == xs[0] || x in xs[1..];
      Type1Consistent(xs[1..], ys, strict)
  }

  /** `AreAttributesEqual`: both records lack attributes, or both carry them
      with equal counts, every kind of `a` present in `b`, and (strict mode
      only) agreeing `Type1` sub-fields. */
  predicate AttributesMatch(a: Material, b: Material, strict: bool) {
    && HasAttributes(a) == HasAttributes(b)
    && (HasAttributes(a) ==>
          && |a.attributes| == |b.attributes|
          && KindsCovered(a.attributes, b.attributes)
          && Type1BlocksAgree(a.attributes, b.attributes, strict))
  }

  function AreAttributesEqual(a: Material, b: Material, strictMode: bool): (r: bool)
    ensures r <==> AttributesMatch(a, b, strictMode)
  {
    if !HasAttributes(a) && !HasAttributes(b) then true
    else if !HasAttributes(a) || !HasAttributes(b) then false
    else if |a.attributes| != |b.attributes| then false
    else if !EveryKindPresent(a.attributes, b.attributes) then false
    else Type1Consistent(a.attributes, b.attributes, strictMode)
  }

  /** `CheckAttributeTypes`: with `HasAttributes` clear only the query -1
      succeeds; otherwise the query succeeds when some attribute has that
      kind. */
  function CheckAttributeTypes(material: Material, kind: int): (r: bool)
    ensures !HasAttributes(material) ==> (r <==> kind == -1)
    ensures HasAttributes(material) ==> (r <==> exists x :: x in material.attributes && x.kind == kind)
  {
    if !HasAttributes(material) then kind == -1
    else 0 <= kind <= 8 && KindPresent(kind, material.attributes)
  }

  /** The attribute check only looks from `a` to `b`: the kinds of `b` are
      not checked back. */
  lemma AttributeCheckOneSided(a: Material, b: Material)
    requires HasAttributes(a) && HasAttributes(b)
    requires |a.attributes| == 2 && a.attributes[0].kind == 0 && a.attributes[1].kind == 0
    requires |b.attributes| == 2 && b.attributes[0].kind == 0 && b.attributes[1].kind == 2
    ensures AreAttributesEqual(a, b, false)
    ensures !AreAttributesEqual(b, a, false)
  {
    assert forall x :: x in a.attributes ==> x.kind == 0;
    assert b.attributes[0] in b.attributes;
    assert KindsCovered(a.attributes, b.attributes);
    assert b.attributes[1] in b.attributes;
    assert !KindPresent(2, a.attributes);
    assert !KindsCovered(b.attributes, a.attributes);
  }

  // ---------------------------------------------------------------------
  // Texcoord words

  /** The texcoord comparison rejects the pair. */
  predicate TexcoordRejects(compareValue: bv32, inputValue: bv32, accuracy: nat) {
    compareValue != inputValue
    && (accuracy == 0
        || Blocked(Decode(compareValue), Decode(inputValue))
        || Distance(Decode(compareValue), Decode(inputValue)) > accuracy)
  }

  function TexcoordDistance(compareValue: bv32, inputValue: bv32): nat {
    if compareValue == inputValue then 0 else Distance(Decode(compareValue), Decode(inputValue))
  }

  /** `FindReducedTexcoord`: equal words are at distance 0; otherwise an
      accuracy of 0 rejects, and a positive accuracy defers to the channel
      matcher with `compareValue` as the reference. */
  function FindReducedTexcoord(compareValue: bv32, inputValue: bv32, accuracy: nat): (r: int)
    ensures compareValue == inputValue ==> r == 0
    ensures compareValue != inputValue && accuracy == 0 ==> r == -1
    ensures r == -1 <==> TexcoordRejects(compareValue, inputValue, accuracy)
    ensures r != -1 ==> r == TexcoordDistance(compareValue, inputValue) && r <= accuracy && r <= 9
  {
    if compareValue == inputValue then 0
    else if accuracy == 0 then -1
    else TestTexcoord(Decode(compareValue), Decode(inputValue), accuracy)
  }

  // ---------------------------------------------------------------------
  // Whole records

  function Mismatch(equal: bool): nat {
    if equal then 0 else 1
  }

  /** The fields compared only in strict mode, one point each. */
  function StrictMismatches(a: Material, b: Material): nat {
    Mismatch(a.ambientColor == b.ambientColor) + Mismatch(a.diffuseColor == b.diffuseColor)
    + Mismatch(a.specularColor == b.specularColor) + Mismatch(a.emissiveColor == b.emissiveColor)
    + Mismatch(a.field40 == b.field40) + Mismatch(a.field44 == b.field44)
    + Mismatch(a.field4A == b.field4A) + Mismatch(a.field4C == b.field4C)
    + Mismatch(a.disableBackfaceCulling == b.disableBackfaceCulling) + Mismatch(a.field98 == b.field98)
  }

  /** The scalar fields always compared: two points for Field4D and Field94,
      one for the others. */
  function FieldMismatches(a: Material, b: Material): nat {
    Mismatch(a.field49 == b.field49) + Mismatch(a.field4B == b.field4B)
    + 2 * Mismatch(a.field4D == b.field4D) + Mismatch(a.field90 == b.field90)
    + Mismatch(a.field92 == b.field92) + 2 * Mismatch(a.field94 == b.field94)
    + Mismatch(a.field96 == b.field96) + Mismatch(a.field5C == b.field5C)
  }

  /** The conditions under which the comparator returns -1. */
  predicate Disqualified(a: Material, b: Material, strict: bool, accuracy: nat) {
    || FlagVeto(a.flags, b.flags)
    || a.drawMethod != b.drawMethod
    || TexcoordRejects(a.field6C, b.field6C, accuracy)
    || TexcoordRejects(a.field70, b.field70, accuracy)
    || !AreAttributesEqual(a, b, strict)
  }

  /** The penalty of a pair that is not disqualified. */
  function Penalty(a: Material, b: Material, strict: bool): nat {
    (if strict then StrictMismatches(a, b) else 0)
    + 2 * FlagScore(a.flags, b.flags)
    + FieldMismatches(a, b)
    + 2 * TexcoordDistance(a.field6C, b.field6C)
    + 2 * TexcoordDistance(a.field70, b.field70)
  }

  /** The strict-mode block of the comparator. */
  method StrictPoints(material: Material, royalMaterial: Material) returns (points: nat)
    ensures points == StrictMismatches(material, royalMaterial)
  {
    var a, b := material, royalMaterial;
    points := 0;
    if !AreColorsEqual(a.ambientColor, b.ambientColor) { points := points + 1; }
    assert points == Mismatch(a.ambientColor == b.ambientColor);
    if !AreColorsEqual(a.diffuseColor, b.diffuseColor) { points := points + 1; }
    ghost var colors := points;
    assert colors == Mismatch(a.ambientColor == b.ambientColor) + Mismatch(a.diffuseColor == b.diffuseColor);
    if !AreColorsEqual(a.specularColor, b.specularColor) { points := points + 1; }
    assert points == colors + Mismatch(a.specularColor == b.specularColor);
    if !AreColorsEqual(a.emissiveColor, b.emissiveColor) { points := points + 1; }
    ghost var allColors := points;
    assert allColors == colors + Mismatch(a.specularColor == b.specularColor) + Mismatch(a.emissiveColor == b.emissiveColor);
    if a.field40 != b.field40 { points := points + 1; }
    assert points == allColors + Mismatch(a.field40 == b.field40);
    if a.field44 != b.field44 { points := points + 1; }
    ghost var floats := points;
    assert floats == allColors + Mismatch(a.field40 == b.field40) + Mismatch(a.field44 == b.field44);
    if a.field4A != b.field4A { points := points + 1; }
    assert points == floats + Mismatch(a.field4A == b.field4A);
    if a.field4C != b.field4C { points := points + 1; }
    ghost var bytes := points;
    assert bytes == floats + Mismatch(a.field4A == b.field4A) + Mismatch(a.field4C == b.field4C);
    if a.disableBackfaceCulling != b.disableBackfaceCulling { points := points + 1; }
    assert points == bytes + Mismatch(a.disableBackfaceCulling == b.disableBackfaceCulling);
    if a.field98 != b.field98 { points := points + 1; }
    assert points == bytes + Mismatch(a.disableBackfaceCulling == b.disableBackfaceCulling) + Mismatch(a.field98 == b.field98);
  }

  /** The fixed-weight block of the comparator. */
  method FieldPoints(material: Material, royalMaterial: Material) returns (points: nat)
    ensures points == FieldMismatches(material, royalMaterial)
  {
    var a, b := material, royalMaterial;
    points := 0;
    if a.field49 != b.field49 { points := points + 1; }
    assert points == Mismatch(a.field49 == b.field49);
    if a.field4B != b.field4B { points := points + 1; }
    ghost var first := points;
    assert first == Mismatch(a.field49 == b.field49) + Mismatch(a.field4B == b.field4B);
    if a.field4D != b.field4D { points := points + 2; }
    assert points == first + 2 * Mismatch(a.field4D == b.field4D);
    if a.field90 != b.field90 { points := points + 1; }
    ghost var second := points;
    assert second == first + 2 * Mismatch(a.field4D == b.field4D) + Mismatch(a.field90 == b.field90);
    if a.field92 != b.field92 { points := points + 1; }
    assert points == second + Mismatch(a.field92 == b.field92);
    if a.field94 != b.field94 { points := points + 2; }
    ghost var third := points;
    assert third == second + Mismatch(a.field92 == b.field92) + 2 * Mismatch(a.field94 == b.field94);
    if a.field96 != b.field96 { points := points + 1; }
    assert points == third + Mismatch(a.field96 == b.field96);
    if a.field5C != b.field5C { points := points + 1; }
    assert points == third + Mismatch(a.field96 == b.field96) + Mismatch(a.field5C == b.field5C);
  }

  /** `MaterialComparer.CompareMaterial` with its fixed increments: -1 when
      the pair is disqualified, otherwise the penalty. */
  method CompareMaterial(material: Material, royalMaterial: Material, useStrictCompare: bool, texcoordAccuracy: nat)
    returns (points: int)
    ensures points == -1 <==> Disqualified(material, royalMaterial, useStrictCompare, texcoordAccuracy)
    ensures points != -1 ==> points == Penalty(material, royalMaterial, useStrictCompare)
  {
    points := 0;
    if useStrictCompare {
      points := StrictPoints(material, royalMaterial);
    }

    ghost var strictPoints := points;
    var flagCompare := CompareMaterialFlags(material.flags, royalMaterial.flags);
    if flagCompare == -1 {
      assert FlagVeto(material.flags, royalMaterial.flags);
      return -1;
    }
    points := points + flagCompare * 2;

    if material.drawMethod != royalMaterial.drawMethod {
      assert Disqualified(material, royalMaterial, useStrictCompare, texcoordAccuracy);
      return -1;
    }
    var fieldPoints := FieldPoints(material, royalMaterial);
    points := points + fieldPoints;
    ghost var beforeTexcoords := points;
    assert beforeTexcoords == strictPoints + 2 * FlagScore(material.flags, royalMaterial.flags) + FieldMismatches(material, royalMaterial);

    if material.field6C != royalMaterial.field6C {
      var texcoordAccuracyResult := FindReducedTexcoord(material.field6C, royalMaterial.field6C, texcoordAccuracy);
      if texcoordAccuracyResult == -1 {
        return -1;
      }
      points := points + texcoordAccuracyResult * 2;
    }
    assert !TexcoordRejects(material.field6C, royalMaterial.field6C, texcoordAccuracy);
    assert points == beforeTexcoords + 2 * TexcoordDistance(material.field6C, royalMaterial.field6C);
    ghost var afterFirst := points;

    if material.field70 != royalMaterial.field70 {
      var texcoordAccuracyResult := FindReducedTexcoord(material.field70, royalMaterial.field70, texcoordAccuracy);
      if texcoordAccuracyResult == -1 {
        return -1;
      }
      points := points + texcoordAccuracyResult * 2;
    }
    assert !TexcoordRejects(material.field70, royalMaterial.field70, texcoordAccuracy);
    assert points == afterFirst + 2 * TexcoordDistance(material.field70, royalMaterial.field70);

    if !AreAttributesEqual(material, royalMaterial, useStrictCompare) {
      assert Disqualified(material, royalMaterial, useStrictCompare, texcoordAccuracy);
      return -1;
    }
    assert !Disqualified(material, royalMaterial, useStrictCompare, texcoordAccuracy);
  }

  // ---------------------------------------------------------------------
  // Properties of the comparator

  /** A record compared with itself, outside strict mode, scores 0 at every
      accuracy. */
  lemma SelfComparisonScoresZero(m: Material, accuracy: nat)
    ensures !Disqualified(m, m, false, accuracy)
    ensures Penalty(m, m, false) == 0
  {
    assert (set bit | bit in ScoredBits && Differs(m.flags, m.flags, bit)) == {};
    assert !FlagVeto(m.flags, m.flags);
    assert HasAttributes(m) ==> KindsCovered(m.attributes, m.attributes);
  }

  /** In strict mode a record with attributes matches itself exactly when
      all its `Type1` blocks agree with each other. */
  lemma StrictSelfComparison(m: Material, accuracy: nat)
    requires HasAttributes(m)
    ensures !Disqualified(m, m, true, accuracy) <==>
      forall x, y :: x in m.attributes && y in m.attributes && x.kind == Type1 && y.kind == Type1 ==> Type1FieldsAgree(x, y)
    ensures !Disqualified(m, m, true, accuracy) ==> Penalty(m, m, true) == 0
  {
    assert (set bit | bit in ScoredBits && Differs(m.flags, m.flags, bit)) == {};
    assert !FlagVeto(m.flags, m.flags);
    assert KindsCovered(m.attributes, m.attributes);
  }

  /** Two `Type1` blocks with different raw flags make a record fail against
      itself in strict mode. */
  lemma StrictSelfComparisonCanFail(m: Material, i: nat, j: nat, accuracy: nat)
    requires HasAttributes(m)
    requires i < |m.attributes| && j < |m.attributes|
    requires m.attributes[i].kind == Type1 && m.attributes[j].kind == Type1
    requires m.attributes[i].rawFlags != m.attributes[j].rawFlags
    ensures Disqualified(m, m, true, accuracy)
  {
    assert m.attributes[i] in m.attributes && m.attributes[j] in m.attributes;
    assert !Type1FieldsAgree(m.attributes[i], m.attributes[j]);
    assert !Type1BlocksAgree(m.attributes, m.attributes, true);
    assert !AreAttributesEqual(m, m, true);
  }

  /** Flag and draw-method disqualifications do not depend on the order of
      the two records. */
  lemma FlagAndDrawMethodVetoSymmetric(a: Material, b: Material)
    ensures (FlagVeto(a.flags, b.flags) || a.drawMethod != b.drawMethod)
        <==> (FlagVeto(b.flags, a.flags) || b.drawMethod != a.drawMethod)
  {
    assert forall bit :: Differs(a.flags, b.flags, bit) == Differs(b.flags, a.flags, bit);
  }

  /** A pair that is not disqualified scores at most 84, and at most 48 when
      the accuracy is 0. */
  lemma PenaltyBounds(a: Material, b: Material, strict: bool, accuracy: nat)
    requires !Disqualified(a, b, strict, accuracy)
    ensures Penalty(a, b, strict) <= 48 + 4 * (if accuracy < 9 then accuracy else 9)
  {
    FlagScoreAtMost14(a.flags, b.flags);
    var r1 := FindReducedTexcoord(a.field6C, b.field6C, accuracy);
    var r2 := FindReducedTexcoord(a.field70, b.field70, accuracy);
  }

  // ---------------------------------------------------------------------
  // Ranking

  /** A candidate reference material with its score and file label. */
  datatype MaterialComparer = MaterialComparer(material: Material, points: int, materialFilename: string)

  /** `MaterialComparer.CompareTo`: orders by points; a missing other
      candidate sorts first. */
  function CompareTo(x: MaterialComparer, other: Option<MaterialComparer>): (r: int)
    ensures other.None? ==> r == 1
    ensures other.Some? ==> (r < 0 <==> x.points < other.value.points)
    ensures other.Some? ==> (r == 0 <==> x.points == other.value.points)
    ensures -1 <= r <= 1
  {
    match other
    case None => 1
    case Some(a) => if x.points < a.points then -1 else if x.points > a.points then 1 else 0
  }

  /** `CompareTo` is antisymmetric and transitive, so it orders candidates. */
  lemma CompareToOrders(x: MaterialComparer, y: MaterialComparer, z: MaterialComparer)
    ensures CompareTo(x, Some(y)) == -CompareTo(y, Some(x))
    ensures CompareTo(x, Some(y)) <= 0 && CompareTo(y, Some(z)) <= 0 ==> CompareTo(x, Some(z)) <= 0
  {
  }
}
