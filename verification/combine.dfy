/** `Combine.CreateCombinedMat`: the reference materials of one version, or
    all of them for version 0, gathered into one collection. */
module Combining {
  import opened Wrappers
  import opened Text
  import opened Materials
  import Seqs

  /** The version argument is not a `uint`. */
  datatype CombineError = InvalidVersion(materialVersion: string)

  function VersionFilter(version: nat): Material -> bool {
    (m: Material) => m.version == version || version == 0
  }

  /** The materials of the corpus, in scan order, whose version is the
      requested one (every material when it is 0). */
  function CreateCombinedMat(corpus: Corpus, materialVersion: string): (r: Result<seq<Material>, CombineError>)
    ensures r.Failure? <==> ParseUInt(materialVersion).None?
    ensures r.Success? ==> Seqs.IsSubsequence(r.value, AllMaterials(corpus))
    ensures r.Success? ==> |r.value| <= MaterialCount(corpus)
    ensures r.Success? && ParseUInt(materialVersion) == Some(0) ==> r.value == AllMaterials(corpus)
    ensures r.Success? && ParseUInt(materialVersion) != Some(0) ==>
      && (forall m :: m in r.value ==> m.version == ParseUInt(materialVersion).value)
      && (forall m: Material :: m.version == ParseUInt(materialVersion).value ==>
            multiset(r.value)[m] == multiset(AllMaterials(corpus))[m])
  {
    match ParseUInt(materialVersion)
    case None => Failure(InvalidVersion(materialVersion))
    case Some(version) =>
      var all := AllMaterials(corpus);
      var combined := Seqs.Filter(all, VersionFilter(version));
      Seqs.SubsequenceLength(combined, all);
      assert version == 0 ==> combined == all by {
        if version == 0 {
          Seqs.FilterKeepsAll(all, VersionFilter(version));
        }
      }
      Success(combined)
  }

  /** A version written with a minus sign selects every material when its
      digits are zero, as `"0"` does, and is an error otherwise. */
  lemma SignedZeroVersionCombinesAll(corpus: Corpus, digits: string)
    requires |digits| > 0 && forall i :: 0 <= i < |digits| ==> '0' <= digits[i] <= '9'
    ensures DigitsValue(digits, 10) == Some(0) ==> CreateCombinedMat(corpus, "-" + digits) == Success(AllMaterials(corpus))
    ensures DigitsValue(digits, 10) != Some(0) ==> CreateCombinedMat(corpus, "-" + digits).Failure?
  {
    ParseUIntNegativeZero(digits);
  }
}
