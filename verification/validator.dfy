/** `Validator`: classifies each input material as Valid (an identical
    reference record exists), SameName (only a record with its name exists)
    or Invalid. */
module Validator {
  import opened Materials
  import opened Comparisons

  datatype Validity = Valid | Invalid | SameName

  datatype ValidationResult = ValidationResult(materialName: string, materialValidity: Validity, matchingMaterialPath: string)

  /** The fields checked only in strict mode agree. */
  predicate StrictFieldsEqual(reference: Material, subject: Material) {
    && reference.ambientColor == subject.ambientColor
    && reference.diffuseColor == subject.diffuseColor
    && reference.specularColor == subject.specularColor
    && reference.emissiveColor == subject.emissiveColor
    && reference.field40 == subject.field40
    && reference.field44 == subject.field44
    && reference.field4A == subject.field4A
    && reference.field4C == subject.field4C
    && reference.disableBackfaceCulling == subject.disableBackfaceCulling
    && reference.field98 == subject.field98
  }

  /** The reference record passes every check of the scan: the strict
      fields in strict mode, then the whole flag word, the draw method, the
      scalar fields, both raw texcoord words and the attribute lists. */
  predicate Passes(reference: Material, subject: Material, strict: bool) {
    && (strict ==> StrictFieldsEqual(reference, subject))
    && AreMatFlagsEqual(reference.flags, subject.flags)
    && reference.drawMethod == subject.drawMethod
    && reference.field49 == subject.field49
    && reference.field4B == subject.field4B
    && reference.field4D == subject.field4D
    && reference.field90 == subject.field90
    && reference.field92 == subject.field92
    && reference.field94 == subject.field94
    && reference.field96 == subject.field96
    && reference.field5C == subject.field5C
    && reference.field6C == subject.field6C
    && reference.field70 == subject.field70
    && AreAttributesEqual(reference, subject, strict)
  }

  /** Entry `i` is the first that passes. */
  predicate FirstPass(entries: seq<Entry>, subject: Material, strict: bool, i: nat)
    requires i < |entries|
  {
    Passes(entries[i].material, subject, strict)
    && forall j :: 0 <= j < i ==> !Passes(entries[j].material, subject, strict)
  }

  predicate AnyPass(entries: seq<Entry>, subject: Material, strict: bool) {
    exists i :: 0 <= i < |entries| && Passes(entries[i].material, subject, strict)
  }

  predicate NameMatches(e: Entry, subject: Material) {
    e.material.name == subject.name
  }

  /** Entry `i` is the last whose name equals the subject's. */
  predicate LastNameMatch(entries: seq<Entry>, subject: Material, i: nat)
    requires i < |entries|
  {
    NameMatches(entries[i], subject)
    && forall j :: i < j < |entries| ==> !NameMatches(entries[j], subject)
  }

  predicate AnyNameMatch(entries: seq<Entry>, subject: Material) {
    exists i :: 0 <= i < |entries| && NameMatches(entries[i], subject)
  }

  function PassLabel(e: Entry): string {
    e.material.name + " (" + e.fileName + ")"
  }

  datatype ScanState = ScanState(validity: Validity, path: string)

  /** The nested loops of the scan from the current entry on, with the
      state reached so far. A name match records the file; a passing record
      ends the scan as Valid. */
  function Scan(entries: seq<Entry>, subject: Material, strict: bool, state: ScanState): (r: ScanState)
    decreases |entries|
  {
    if |entries| == 0 then state
    else
      var e := entries[0];
      var next := if NameMatches(e, subject) then ScanState(SameName, e.fileName) else state;
      if Passes(e.material, subject, strict) then ScanState(Valid, PassLabel(e))
      else Scan(entries[1..], subject, strict, next)
  }

  /** The scan ends Valid at the first passing entry; failing that, it
      remembers the last entry with the subject's name; failing that, it
      leaves the state it started from. */
  lemma {:induction false} ScanClassifies(entries: seq<Entry>, subject: Material, strict: bool, state: ScanState)
    requires state.validity != Valid
    ensures var r := Scan(entries, subject, strict, state);
      AnyPass(entries, subject, strict) ==>
        r.validity == Valid && exists i :: 0 <= i < |entries| && FirstPass(entries, subject, strict, i) && r.path == PassLabel(entries[i])
    ensures var r := Scan(entries, subject, strict, state);
      !AnyPass(entries, subject, strict) && AnyNameMatch(entries, subject) ==>
        r.validity == SameName && exists i :: 0 <= i < |entries| && LastNameMatch(entries, subject, i) && r.path == entries[i].fileName
    ensures !AnyPass(entries, subject, strict) && !AnyNameMatch(entries, subject) ==>
      Scan(entries, subject, strict, state) == state
    decreases |entries|
  {
    if |entries| > 0 {
      var e := entries[0];
      var next := if NameMatches(e, subject) then ScanState(SameName, e.fileName) else state;
      var r := Scan(entries, subject, strict, state);
      ScanShift(entries, subject, strict);
      if Passes(e.material, subject, strict) {
        assert FirstPass(entries, subject, strict, 0);
      } else {
        var rest := entries[1..];
        assert r == Scan(rest, subject, strict, next);
        ScanClassifies(rest, subject, strict, next);
        if AnyPass(rest, subject, strict) {
          var i :| 0 <= i < |rest| && FirstPass(rest, subject, strict, i) && r.path == PassLabel(rest[i]);
          FirstPassShift(entries, subject, strict, i);
        } else if AnyNameMatch(rest, subject) {
          var i :| 0 <= i < |rest| && LastNameMatch(rest, subject, i) && r.path == rest[i].fileName;
          LastNameMatchShift(entries, subject, i);
        } else if NameMatches(e, subject) {
          LastNameMatchHead(entries, subject);
        }
      }
    }
  }

  lemma FirstPassShift(entries: seq<Entry>, subject: Material, strict: bool, i: nat)
    requires |entries| > 0 && i < |entries| - 1
    requires !Passes(entries[0].material, subject, strict)
    requires FirstPass(entries[1..], subject, strict, i)
    ensures FirstPass(entries, subject, strict, i + 1)
  {
    assert forall j :: 0 <= j < i ==> entries[1..][j] == entries[j + 1];
  }

  lemma LastNameMatchShift(entries: seq<Entry>, subject: Material, i: nat)
    requires |entries| > 0 && i < |entries| - 1
    requires LastNameMatch(entries[1..], subject, i)
    ensures LastNameMatch(entries, subject, i + 1)
  {
    assert forall j :: i + 1 < j < |entries| ==> entries[j] == entries[1..][j - 1];
  }

  lemma LastNameMatchHead(entries: seq<Entry>, subject: Material)
    requires |entries| > 0 && NameMatches(entries[0], subject)
    requires !AnyNameMatch(entries[1..], subject)
    ensures LastNameMatch(entries, subject, 0)
  {
    assert forall j :: 0 < j < |entries| ==> entries[j] == entries[1..][j - 1];
  }

  lemma ScanShift(entries: seq<Entry>, subject: Material, strict: bool)
    requires |entries| > 0
    ensures AnyPass(entries, subject, strict) <==>
      Passes(entries[0].material, subject, strict) || AnyPass(entries[1..], subject, strict)
    ensures AnyNameMatch(entries, subject) <==>
      NameMatches(entries[0], subject) || AnyNameMatch(entries[1..], subject)
  {
    var rest := entries[1..];
    assert forall i :: 0 <= i < |rest| ==> rest[i] == entries[i + 1];
    if AnyPass(entries, subject, strict) && !Passes(entries[0].material, subject, strict) {
      var i :| 0 <= i < |entries| && Passes(entries[i].material, subject, strict);
      assert Passes(rest[i - 1].material, subject, strict);
    }
    if AnyNameMatch(entries, subject) && !NameMatches(entries[0], subject) {
      var i :| 0 <= i < |entries| && NameMatches(entries[i], subject);
      assert NameMatches(rest[i - 1], subject);
    }
  }

  /** `Validator.CompareMaterial`: the classification of one input material
      against the reference corpus. */
  function CompareMaterial(corpus: Corpus, royalMaterial: Material, useStrictCompare: bool): (r: ValidationResult)
    ensures r.materialName == royalMaterial.name
    ensures var entries := Flatten(corpus);
      r.materialValidity == Valid <==> AnyPass(entries, royalMaterial, useStrictCompare)
    ensures var entries := Flatten(corpus);
      r.materialValidity == Valid ==>
        exists i :: 0 <= i < |entries| && FirstPass(entries, royalMaterial, useStrictCompare, i) && r.matchingMaterialPath == PassLabel(entries[i])
    ensures var entries := Flatten(corpus);
      r.materialValidity == SameName <==>
        !AnyPass(entries, royalMaterial, useStrictCompare) && AnyNameMatch(entries, royalMaterial)
    ensures var entries := Flatten(corpus);
      r.materialValidity == SameName ==>
        exists i :: 0 <= i < |entries| && LastNameMatch(entries, royalMaterial, i) && r.matchingMaterialPath == entries[i].fileName
    ensures r.materialValidity == Invalid ==> r.matchingMaterialPath == ""
  {
    var entries := Flatten(corpus);
    ScanClassifies(entries, royalMaterial, useStrictCompare, ScanState(Invalid, ""));
    var state := Scan(entries, royalMaterial, useStrictCompare, ScanState(Invalid, ""));
    ValidationResult(royalMaterial.name, state.validity, state.path)
  }

  /** `CompareAllMaterials`: one result per input material, in input order.
      The concurrent tasks of the source are independent, so a sequential
      map has the same results. */
  function CompareAllMaterials(corpus: Corpus, inputMaterials: seq<Material>, useStrictCompare: bool): (r: seq<ValidationResult>)
    ensures |r| == |inputMaterials|
    ensures forall i :: 0 <= i < |r| ==> r[i].materialName == inputMaterials[i].name
    ensures forall i :: 0 <= i < |r| ==> r[i] == CompareMaterial(corpus, inputMaterials[i], useStrictCompare)
  {
    seq(|inputMaterials|, i requires 0 <= i < |inputMaterials| => CompareMaterial(corpus, inputMaterials[i], useStrictCompare))
  }

  /** `IsMaterialValid(string)`: some result with that name is Invalid or
      SameName. Despite its name it reports a material that did NOT
      validate. */
  function IsMaterialValidName(results: seq<ValidationResult>, materialName: string): (r: bool)
    ensures r <==> exists i :: 0 <= i < |results| && results[i].materialName == materialName
                               && results[i].materialValidity != Valid
    decreases |results|
  {
    if |results| == 0 then false
    else if results[0].materialName == materialName
         && (results[0].materialValidity == Invalid || results[0].materialValidity == SameName) then true
    else
      var r := IsMaterialValidName(results[1..], materialName);
      assert forall i :: 0 <= i < |results| - 1 ==> results[1..][i] == results[i + 1];
      assert r ==> exists i :: 0 <= i < |results| && results[i].materialName == materialName
                               && results[i].materialValidity != Valid by {
        if r {
          var i :| 0 <= i < |results| - 1 && results[1..][i].materialName == materialName
                   && results[1..][i].materialValidity != Valid;
          assert results[i + 1] == results[1..][i];
        }
      }
      assert !r ==> forall i :: 0 <= i < |results| && results[i].materialName == materialName ==>
                               results[i].materialValidity == Valid by {
        forall i | 0 <= i < |results| && results[i].materialName == materialName && !r
          ensures results[i].materialValidity == Valid
        {
          if i > 0 {
            assert results[1..][i - 1] == results[i];
          }
        }
      }
      r
  }

  /** `IsMaterialValid(result)`: the result is Valid. */
  function IsMaterialValidResult(result: ValidationResult): (r: bool)
    ensures r <==> result.materialValidity == Valid
  {
    result.materialValidity == Valid
  }

  /** The result-based check holds for a classification exactly when some
      reference record passes for the material. */
  lemma ValidResultIffSomeReferencePasses(corpus: Corpus, royalMaterial: Material, strict: bool)
    ensures IsMaterialValidResult(CompareMaterial(corpus, royalMaterial, strict)) <==>
      AnyPass(Flatten(corpus), royalMaterial, strict)
  {
  }

  /** The two `IsMaterialValid` overloads are complementary: the name-based
      one holds exactly when some result of that name fails the
      result-based one. */
  lemma NameCheckNegatesResultCheck(results: seq<ValidationResult>, materialName: string)
    ensures IsMaterialValidName(results, materialName) <==>
      exists i :: 0 <= i < |results| && results[i].materialName == materialName
                  && !IsMaterialValidResult(results[i])
  {
  }

  /** For the results of a validation run, the name-based check holds for
      a name exactly when some input material of that name has no passing
      reference record. */
  lemma NameCheckReportsFailures(corpus: Corpus, inputMaterials: seq<Material>, strict: bool, name: string)
    ensures IsMaterialValidName(CompareAllMaterials(corpus, inputMaterials, strict), name) <==>
      exists i :: 0 <= i < |inputMaterials| && inputMaterials[i].name == name
                  && !AnyPass(Flatten(corpus), inputMaterials[i], strict)
  {
    var results := CompareAllMaterials(corpus, inputMaterials, strict);
    if exists i :: 0 <= i < |inputMaterials| && inputMaterials[i].name == name && !AnyPass(Flatten(corpus), inputMaterials[i], strict) {
      var i :| 0 <= i < |inputMaterials| && inputMaterials[i].name == name && !AnyPass(Flatten(corpus), inputMaterials[i], strict);
      assert results[i].materialValidity != Valid;
    }
  }

  /** A reference record accepted by the scan scores a perfect 0 in the
      record comparator at accuracy 0, and conversely a perfect score at
      accuracy 0 with identical flag words means the record passes. The
      flag words must be given: the comparator does not look at the
      wireframe and texture-map presence bits, the scan does. */
  lemma PassesIffPerfectScore(reference: Material, subject: Material, strict: bool)
    ensures Passes(reference, subject, strict) <==>
      && !Disqualified(reference, subject, strict, 0)
      && Penalty(reference, subject, strict) == 0
      && reference.flags == subject.flags
  {
    if Passes(reference, subject, strict) {
      assert (set bit | bit in ScoredBits && Differs(reference.flags, subject.flags, bit)) == {};
      assert !FlagVeto(reference.flags, subject.flags);
    }
    if !Disqualified(reference, subject, strict, 0) && Penalty(reference, subject, strict) == 0
       && reference.flags == subject.flags {
      assert !TexcoordRejects(reference.field6C, subject.field6C, 0);
      assert !TexcoordRejects(reference.field70, subject.field70, 0);
      assert FieldMismatches(reference, subject) == 0;
      assert strict ==> StrictMismatches(reference, subject) == 0;
    }
  }

  /** An identical record always passes, so an input material that occurs
      in the corpus is Valid. */
  lemma PresentMaterialIsValid(corpus: Corpus, royalMaterial: Material, strict: bool, f: nat, j: nat)
    requires f < |corpus| && j < |corpus[f].materials|
    requires corpus[f].materials[j] == royalMaterial
    requires HasAttributes(royalMaterial) && strict ==>
      forall x, y :: x in royalMaterial.attributes && y in royalMaterial.attributes && x.kind == Type1 && y.kind == Type1 ==>
        Type1FieldsAgree(x, y)
    ensures CompareMaterial(corpus, royalMaterial, strict).materialValidity == Valid
  {
    var entries := Flatten(corpus);
    var e := Entry(corpus[f].fileName, royalMaterial);
    assert e in entries;
    var i :| 0 <= i < |entries| && entries[i] == e;
    assert HasAttributes(royalMaterial) ==> KindsCovered(royalMaterial.attributes, royalMaterial.attributes);
    assert Passes(entries[i].material, royalMaterial, strict);
  }
}
