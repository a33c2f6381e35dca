# P5MatValidator material-similarity engine in Dafny

This project models the part of P5MatValidator that compares materials. It
judges Persona 5 material records against a corpus of reference records.
Once the records are loaded, every operation is a pure scan over immutable
data. The model makes that scan explicit.

- **Materials** (`materials.dfy`): the material record as a datatype. The
  flag word and the two packed texcoord words are `bv32`. Colours and the
  two float fields are opaque values with equality only. Attribute blocks
  carry a kind 0..8 and the `Type1` sub-fields. The module also defines the
  corpus of reference files and its flattening into scan order.
- **Texcoords** (`texcoords.dfy`): the `Texcoord` class. A word splits into
  nine 3-bit channels, and 7 marks an unused channel. The channel matcher
  `TestTexcoord` returns a distance or the sentinel -1.
  `GetEnabledTexcoordCount` counts the channels in use.
- **Comparisons** (`comparisons.dfy`): the `MaterialComparer` class.
  - The flag comparator has eight disqualifying bits and fourteen scored
    bits.
  - `FindReducedTexcoord` and the attribute-list check live here too.
  - The weighted record comparator returns -1 or a penalty sum.
  - `CompareTo` orders candidates.
- **Searcher** (`searcher.dfy`): `MaterialSearcher`.
  - The `?key value` argument tokenizer is modelled both as written and as
    evidently intended.
  - Keys are resolved through a table of about seventy aliases.
  - The search reports the records on which every predicate holds.
  - The replacement finder filters candidates and sorts them by points.
- **Validator** (`validator.dfy`): the first-match classification scan,
  which yields Valid, SameName or Invalid. The module also models the map
  over all input materials and both `IsMaterialValid` overloads.
- **InputHandling** (`input_handler.dfy`): the command-line tokenizer and
  `GetModeSet`.
- **Combining** (`combine.dfy`): the version filter behind
  `CreateCombinedMat`.
- **Text**, **Seqs**, **Wrappers**: shared helpers.
  - Text covers ASCII lower-casing, `StartsWith` and `Contains`, and the
    runtime's `uint`, `int`, `byte` and hexadecimal parsers as partial
    functions.
  - Seqs covers filtering and subsequences.
  - Wrappers defines `Option` and `Result`.

Each operation is stated against an independent definition. For example:

- `CompareMaterial` returns -1 exactly on `Disqualified` and otherwise the
  `Penalty` sum.
- `TestTexcoord` rejects exactly on a channel conflict, or when the distance
  exceeds the accuracy.
- The validator is Valid exactly when some reference record passes, and it
  reports the first such record.

Exceptions thrown by the source become `Failure` values.

## Model

| member | source | states |
|---|---|---|
| Texcoords.TestTexcoord | src/Searcher.cs:319-379 | -1 exactly when some channel used by the reference differs from the input's, or when the distance exceeds the accuracy; otherwise the distance, which is at most the accuracy and at most 9 |
| Texcoords.ScanChannels | src/Searcher.cs:323-376 | the channel-by-channel walk stops with -1 at the first conflict; otherwise it adds the number of channels that are unused in the reference but used in the input |
| Texcoords.DistanceAtMostNine | src/Searcher.cs:321-378 | the distance never exceeds the nine channels |
| Texcoords.GetEnabledTexcoordCount | src/Searcher.cs:380-395 | the count equals the size of the set of channels that are not 7, hence at most 9 |
| Texcoords.CountEnabled | src/Searcher.cs:382-394 | the running count from channel `from` on is the number of channels in use from there |
| Texcoords.SelfDistanceZero | src/Searcher.cs:323-378 | a word matched against itself gives 0 at every accuracy |
| Texcoords.DistanceAtMostUnusedChannels | src/Searcher.cs:323-395 | the distance plus the reference's enabled-channel count is at most 9 |
| Texcoords.AllUnusedReference | src/Searcher.cs:323-331 | a reference that uses no channel never conflicts; its distance to an input is the number of channels the input uses |
| Texcoords.DecodeEncode | src/Searcher.cs:305-317 | decoding a packed word gives back the nine packed channels |
| Texcoords.EncodeDecode | src/Searcher.cs:305-317 | re-packing the decoded channels restores bits 0..26 of the word |
| Texcoords.HighBitsIgnored | src/Searcher.cs:305-317 | bits 27..31 of the word do not affect any channel |
| Comparisons.ScanFlags | src/Comparisons.cs:244-310 | the ascending scan returns -1 iff some disqualifying bit from the start on differs; otherwise it returns the points so far plus the number of differing scored bits |
| Comparisons.ListedBitRoles | src/Comparisons.cs:246-308 | every listed veto bit has the veto role and every listed scored bit has the scored role |
| Comparisons.ScanAgreesWithLists | src/Comparisons.cs:246-308 | the scan's veto and score notions coincide with the bit lists 4,7,11,13,16,17,18,30 and 0-3,5,6,8-10,14,15,19,29,31 |
| Comparisons.CompareMaterialFlags | src/Comparisons.cs:234-311 | -1 iff a disqualifying flag differs; otherwise the number of differing scored flags; always in -1..14 |
| Comparisons.FlagScoreAtMost14 | src/Comparisons.cs:246-310 | at most fourteen scored flags can differ |
| Comparisons.FlagsEqualScoreZero | src/Comparisons.cs:241-242 | equal flag words compare as 0 |
| Comparisons.FlagsSymmetric | src/Comparisons.cs:236-239 | swapping the two flag words does not change the result |
| Comparisons.IgnoredFlagsIrrelevant | src/Comparisons.cs:250-308 | changing only bit 12, bits 20-28 or other unlisted bits leaves the flag comparison unchanged |
| Comparisons.AreMatFlagsEqual | src/Comparisons.cs:120-125 | true iff the two words agree on every one of the 32 bits, including the ignored and unnamed ones; equal words also score 0 in the flag comparator |
| Comparisons.FlagEqualityStricterThanScore | src/Comparisons.cs:120-125 | words that differ only in bit 12 score 0 in the flag comparator but are not equal flag words |
| Materials.BitsDetermineWord | src/Comparisons.cs:120-125 | two flag words agree on all 32 bits iff they are the same word |
| Comparisons.AreColorsEqual | src/Comparisons.cs:110-118 | true iff all four channels are equal |
| Comparisons.KindPresent | src/Comparisons.cs:141-148 | the inner search finds an attribute of the kind iff one is present |
| Comparisons.EveryKindPresent | src/Comparisons.cs:137-154 | the first loop succeeds iff every kind of `a` occurs among the kinds of `b` |
| Comparisons.Type1AgreesWithAll | src/Comparisons.cs:160-172 | in strict mode a `Type1` block must agree on its four sub-fields with every `Type1` block of `b`; outside strict mode nothing is required |
| Comparisons.Type1Consistent | src/Comparisons.cs:156-174 | the second loop succeeds iff every pair of `Type1` blocks across `a` and `b` agrees, strict mode only |
| Comparisons.AreAttributesEqual | src/Comparisons.cs:127-177 | true iff `HasAttributes` is equal on both records and, when it is set, the counts match, every kind of `a` is in `b`, and the `Type1` blocks agree (strict mode only) |
| Comparisons.AttributeCheckOneSided | src/Comparisons.cs:137-154 | kinds [0,0] against [0,2] pass while [0,2] against [0,0] fail: the attribute comparison does not look back from `b` |
| Comparisons.CheckAttributeTypes | src/Comparisons.cs:179-214 | without `HasAttributes` only the query -1 succeeds; with it, the query succeeds iff some attribute has that kind |
| Comparisons.FindReducedTexcoord | src/Comparisons.cs:216-232 | equal words give 0; otherwise accuracy 0 gives -1; otherwise -1 iff the channel matcher, with the first word as reference, rejects; a non-negative result is that distance, at most the accuracy and at most 9 |
| Comparisons.StrictPoints | src/Comparisons.cs:33-55 | one point for each of the ten strict-mode fields that differs |
| Comparisons.FieldPoints | src/Comparisons.cs:67-82 | one point each for Field49, Field4B, Field90, Field92, Field96 and Field5C; two each for Field4D and Field94 |
| Comparisons.CompareMaterial | src/Comparisons.cs:29-105 | -1 iff a flag veto, a DrawMethod mismatch, a rejected texcoord or a failed attribute check occurs; otherwise the strict points (strict mode only), plus 2 × the flag score, plus the field points, plus 2 × each texcoord distance |
| Comparisons.SelfComparisonScoresZero | src/Comparisons.cs:29-105 | outside strict mode a record compared with itself is never disqualified and scores 0, at any accuracy |
| Comparisons.StrictSelfComparison | src/Comparisons.cs:156-174 | in strict mode a record with attributes passes against itself iff all its `Type1` blocks agree pairwise, and then scores 0 |
| Comparisons.StrictSelfComparisonCanFail | src/Comparisons.cs:158-170 | two `Type1` blocks with different raw flags disqualify a record against itself in strict mode |
| Comparisons.FlagAndDrawMethodVetoSymmetric | src/Comparisons.cs:57-66 | the flag and DrawMethod disqualifications do not depend on argument order |
| Comparisons.PenaltyBounds | src/Comparisons.cs:31-104 | a pair that is not disqualified scores at most 48 + 4 × min(accuracy, 9) |
| Comparisons.CompareTo | src/Comparisons.cs:21-26 | a missing other candidate gives 1; otherwise the sign of the result is the order of the two point values |
| Comparisons.CompareToOrders | src/Comparisons.cs:21-26 | `CompareTo` is antisymmetric and transitive |
| Searcher.TokenizeSearchArgs | src/Searcher.cs:18-57 | as written: every parsed tolerance is 0, and the constructor fails iff a `?` argument the loop visits is the last argument |
| Searcher.AsWrittenFailsAtShift | src/Searcher.cs:28-31 | an argument without `?` is skipped and does not change where the loop fails |
| Searcher.AsWrittenFailsAtSkip | src/Searcher.cs:48-54 | a `?` argument consumes its value, and failure is decided on the rest |
| Searcher.TokenizeSearchArgsIntended | src/Searcher.cs:33-55 | corrected guard: every parameter's key comes from some `?key` argument |
| Searcher.IntendedTokenizerRoundTrip | src/Searcher.cs:18-57 | the corrected tokenizer reads back every rendered `?key value tolerance` triple, tolerance included |
| Searcher.AsWrittenTokenizerDropsTolerance | src/Searcher.cs:33-55 | the tokenizer as written reads the same command line with every tolerance replaced by 0 |
| Searcher.ToleranceLostExample | src/Searcher.cs:33-34 | `?texcoord1 0x1C0 3` yields tolerance 0 as written and tolerance 3 when corrected |
| Searcher.Lookup | src/Searcher.cs:155-272 | a key resolves to the member of the first row carrying it, and to nothing iff no row carries it |
| Searcher.LookupAppend | src/Searcher.cs:155-272 | in a table made of two groups, the first group is tried first and the second only when the first has no row for the key |
| Searcher.LookupAt | src/Searcher.cs:155-272 | the first row carrying the key decides the lookup |
| Searcher.NameKey | src/Searcher.cs:155 | `name`, in any case, resolves to the name predicate |
| Searcher.PurpleWireframeKey | src/Searcher.cs:181 | `purplewireframe`, in any case, resolves to flag bit 12 |
| Searcher.Texcoord1Key | src/Searcher.cs:247 | `texcoord1`, in any case, resolves to the first texcoord word |
| Searcher.Field92Unknown | src/Searcher.cs:239-243 | `field92` resolves to nothing: the chain tests `field90` and `field94` but has no test for `field92` |
| Searcher.ResolveKeyIgnoresCase | src/Searcher.cs:155-272 | key resolution does not depend on case |
| Searcher.ParseTexcoord | src/Searcher.cs:278-289 | a `0x` prefix selects hexadecimal parsing of the rest; any result fits in 32 bits |
| Searcher.ParseTexcoordHexRoundTrip | src/Searcher.cs:280-284 | `0x` followed by the hex digits of a 32-bit value parses back to that value |
| Searcher.ParseTexcoordDecimalRoundTrip | src/Searcher.cs:285-288 | the decimal digits of a 32-bit value parse back to that value |
| Searcher.TexcoordMember | src/Searcher.cs:247-268 | fails iff the value does not parse; otherwise tests exact equality at tolerance 0 and otherwise asks the channel matcher |
| Searcher.EvaluateMember | src/Searcher.cs:155-272 | fails iff the value does not parse for the member; texcoord members follow the tolerance rule; the name member compares lower-cased names |
| Searcher.CompareMaterialMemberValue | src/Searcher.cs:152-276 | an unknown key gives false; the result is an error iff the key is known and its value does not parse |
| Searcher.TexcoordPredicate | src/Searcher.cs:247-257 | at tolerance 0 a texcoord1 predicate is word equality; at tolerance t > 0 it holds iff `FindReducedTexcoord(field, value, t)` does not reject |
| Searcher.FlagPredicate | src/Searcher.cs:157-220 | a flag predicate holds iff the bit is set exactly when the parsed value is nonzero |
| Searcher.NamePredicateIgnoresCase | src/Searcher.cs:155-156 | a name predicate does not depend on the case of the value |
| Searcher.Texcoord1PredicateExample | src/Searcher.cs:247-257 | `?texcoord1 448 3` holds on a record iff the channel matcher, with the record's word as reference, accepts 448 at tolerance 3 |
| Searcher.PurpleWireframePredicateExample | src/Searcher.cs:181-182 | `?purplewireframe 1` holds on a record iff its flag bit 12 is set |
| Searcher.AllHold | src/Searcher.cs:66-71 | the short-circuit conjunction holds iff every outcome holds, and fails iff some outcome fails after only true ones |
| Searcher.MatchesAll | src/Searcher.cs:62-71 | a record matches iff every predicate holds; evaluation fails iff some predicate throws before any false one |
| Searcher.SearchEntries | src/Searcher.cs:60-85 | the labels of exactly the selected entries, in scan order; fails iff evaluating some entry throws |
| Searcher.SearchForMaterial | src/Searcher.cs:58-86 | the `file -> name` labels of the corpus records selected by the predicates, in corpus order |
| Searcher.EmptySearchFindsNothing | src/Searcher.cs:62-73 | with no predicates nothing is reported |
| Searcher.SearchReportsExactlyMatches | src/Searcher.cs:58-86 | a corpus record is reported iff the predicate list is non-empty and every predicate holds on it |
| Searcher.SearchCommand | src/Searcher.cs:18-86 | a command line whose arguments do not tokenize fails with an argument error; once they tokenize, the command succeeds iff the search on the parameters the corrected tokenizer reads succeeds, reports exactly that search's labels, and otherwise fails with the search's own error |
| Searcher.SearchCommandRunsRenderedParameters | src/Searcher.cs:18-86 | the command line rendered from a predicate list searches for exactly that list, tolerances included |
| Searcher.CandidatesMembership | src/Searcher.cs:96-105 | a candidate is kept iff it comes from an entry that is not disqualified and scores at most `maximumPoints` |
| Searcher.CandidatesStep | src/Searcher.cs:96-105 | each entry appends its candidate exactly when it is accepted |
| Searcher.CandidatesEmpty | src/Searcher.cs:107-110 | no candidate survives iff no entry is accepted |
| Searcher.SortedByPointsMeansCompareTo | src/Searcher.cs:112 | ascending points is exactly the order in which no earlier candidate compares greater than a later one |
| Searcher.InsertByPoints | src/Searcher.cs:112 | inserting into a sorted list keeps it sorted and adds exactly the new candidate |
| Searcher.SortByPoints | src/Searcher.cs:112 | the sorted list is a permutation of its input, in ascending points |
| Searcher.TryFindReplacementMat | src/Searcher.cs:88-115 | found iff some reference entry is accepted; none found gives the empty list; otherwise the output is sorted and a permutation of the accepted candidates |
| Searcher.ReplacementCandidates | src/Searcher.cs:96-105 | every output candidate has points other than -1 and at most `maximumPoints`, and is a reference record with its own file and penalty; every accepted record is in the output |
| Validator.ScanClassifies | src/Validator.cs:118-184 | the scan ends Valid with the first passing entry; failing that, SameName with the file of the last name match; failing that, in the starting state |
| Validator.CompareMaterial | src/Validator.cs:113-192 | Valid iff some reference passes, with the first one's `Name (file)`; SameName iff none passes but some reference has the same name, with the last such file; otherwise Invalid with "" |
| Validator.CompareAllMaterials | src/Validator.cs:100-111 | one result per input material, in input order, each the classification of that material |
| Validator.IsMaterialValidName | src/Validator.cs:194-198 | true iff some result with that name is Invalid or SameName |
| Validator.IsMaterialValidResult | src/Validator.cs:200-203 | true iff the result is Valid |
| Validator.ValidResultIffSomeReferencePasses | src/Validator.cs:200-203 | the result-based check holds on a classification iff some reference record passes for the material |
| Validator.NameCheckNegatesResultCheck | src/Validator.cs:194-203 | the name-based check holds iff some result of that name fails the result-based check |
| Validator.NameCheckReportsFailures | src/Validator.cs:194-198 | after a run, the name check holds iff some input material of that name has no passing reference |
| Validator.PassesIffPerfectScore | src/Validator.cs:127-177 | a reference passes the validator's checks iff the comparator at accuracy 0 does not disqualify it, scores it 0, and the full flag words are equal |
| Validator.PresentMaterialIsValid | src/Validator.cs:118-179 | an input material that occurs in the corpus is Valid (in strict mode, provided its `Type1` blocks agree) |
| InputHandling.GetModeSet | src/InputHandler.cs:52-61 | the mode of the first of validate, strict, convert, dump, search that occurs in the argument, else 0 |
| InputHandling.GetModeSetNeverCombine | src/InputHandler.cs:52-71 | no argument selects the combine bit |
| InputHandling.ModeOfKnownBits | src/InputHandler.cs:28-33 | the accumulated run mode uses only the declared mode bits, never combine |
| InputHandling.ModeOfAppend | src/InputHandler.cs:28-33 | the run mode of concatenated modifiers is the OR of their run modes |
| InputHandling.ScanArgs | src/InputHandler.cs:19-47 | every command parameter's key starts with `-`; every modifier starts with `!` and is one of the arguments |
| InputHandling.ScanArgsSkipsStray | src/InputHandler.cs:34-37 | arguments starting with neither `-` nor `!` are skipped: put in front of a command line, they leave the result unchanged |
| InputHandling.NewInputHandler | src/InputHandler.cs:15-50 | fails, with the scan's error, iff the argument scan fails; otherwise the arguments are kept unchanged, the command parameters and modifiers are exactly the scan's, in argument order, the run mode is the OR of the modifiers' modes, and the combine bit is never set |
| InputHandling.ScanArgsAppend | src/InputHandler.cs:19-47 | after a complete prefix, scanning continues on the rest independently, and the results concatenate in order |
| InputHandling.TrailingKeyFails | src/InputHandler.cs:23-42 | a `-key` in last position has no value and makes the constructor fail |
| InputHandling.RunModeAppend | src/InputHandler.cs:28-33 | the run mode of concatenated arguments is the OR of their run modes |
| InputHandling.ScanArgsRoundTrip | src/InputHandler.cs:19-37 | rendered `-key value` pairs and `!` modifiers are read back exactly, in order |
| Combining.CreateCombinedMat | src/Combine.cs:7-23 | fails iff the version does not parse; otherwise a subsequence of the flattened corpus, all of it for version 0, and exactly the materials of that version (with multiplicity) otherwise |
| Materials.Flatten | src/Searcher.cs:96-98 | every material of every file appears with its file's name, every entry comes from some file, and the count is the total |
| Materials.AllMaterials | src/Combine.cs:16 | the materials of all files in scan order, every one of them and nothing else |
| Text.ParseUIntRoundTrip | src/Combine.cs:9 | the decimal digits of a 32-bit unsigned value parse back to that value |
| Text.ParseUIntNegativeZero | src/Combine.cs:9 | a minus sign before decimal digits parses iff the digits' value is 0, and then gives 0 |
| Combining.SignedZeroVersionCombinesAll | src/Combine.cs:9-18 | a version of `-` followed by zero digits selects every material, as version 0 does; `-` before any other value is an error |
| Text.ParseByteRoundTrip | src/Searcher.cs:34 | the decimal digits of a byte value parse back as a byte |
| Text.ParseIntRoundTrip | src/Searcher.cs:158 | a signed 32-bit value written in decimal parses back to itself |
| Text.ParseHexRoundTrip | src/Searcher.cs:283 | the hexadecimal digits of a 32-bit value parse back to that value |

## Left out

- Loading reference and input files, the GFD container format, saving, console output and the `Print*` methods. These are I/O over a library the model does not include.
- src/Converter.cs, src/Convert.cs, src/MaterialTester.cs and the command dispatch in src/Program.cs. They are outside the comparison engine.
- src/Search.cs and src/Validation.cs. These are older copies of the searcher and validator and are not used by the live code.
- The weights table (`GetMaterialPoints`, called at src/Searcher.cs:94). The overload of `CompareMaterial` that takes it is not part of this model. `Searcher.TryFindReplacementMat` uses the fixed-increment comparator of src/Comparisons.cs:29-105 instead.
- `HasAttributeOfType` (src/Searcher.cs:190) is not part of this model. Together with `float.Parse`, it is a parameter of the search (`Collaborators`).
- Floating-point semantics: floats are opaque values with equality only, so NaN is not modelled. The attribute check (src/Comparisons.cs:169-170) and the search compare floats with `==` and `!=`, under which NaN differs from itself.
- Comparisons.StrictSelfComparison: holds only for `Type1` blocks whose `Field1C` and `Field20` are not NaN. In strict mode a block holding NaN fails against itself in the source.
- Validator.PresentMaterialIsValid: in strict mode, holds only for `Type1` blocks whose `Field1C` and `Field20` are not NaN, for the same reason.
- Searcher.EvaluateMember: `ToLower` is modelled on ASCII letters only. Culture-specific case mapping is not modelled.
- Text.ParseUInt: the runtime parsers' handling of surrounding white space, thousands separators and culture settings is not modelled. The model accepts an optional `+` or `-` followed by decimal digits, and `-` only when the value is 0.
- Searcher.EvaluateMember: `(MaterialDrawMethod)uint.Parse` is compared without truncation to the enum's width, because that width is not shown.
- Searcher.SortByPoints: `List.Sort` is not stable. The model sorts by insertion and promises only a permutation in ascending points, not the library's order among equal points.
- Combining.CreateCombinedMat: `MaterialDictionary.Add` is not shown and is modelled as appending. Any de-duplication by name that the dictionary may do is not modelled.
- The concurrent tasks of src/Validator.cs:100-111 are modelled as a sequential map. The tasks share no state, so the results are the same.
- The `NullReferenceException` handler around the label at src/Searcher.cs:75-82. Names are never null in the model.
- The null-corpus exception at src/Searcher.cs:90-91. The corpus is always present in the model.
- src/Validator.cs:2 imports the static members of a `P5MatValidator.Comparisons` class, which is not part of this model. The model assumes its `AreColorsEqual`, `AreMatFlagsEqual` and `AreAttributesEqual` behave as `MaterialComparer`'s helpers of the same name (src/Comparisons.cs:110-177).

## Notes

Some behaviours of the code that are easy to miss:

- Attribute check: the code compares all four `Type1` sub-fields only in strict mode (src/Comparisons.cs:167-170). It checks kinds only from `a` to `b` (see `Comparisons.AttributeCheckOneSided`).
- Unused reference: a reference whose channels are all unused gives a distance equal to the number of channels the input uses, not 0 (see `Texcoords.AllUnusedReference`).
- Sorting: the finder's sort is the unstable `List.Sort`, not a stable sort.
- Validator: the validator does not call the comparator. It has its own chain of equality tests, which adds full flag-word equality and raw texcoord equality. `Validator.PassesIffPerfectScore` relates the two.

## Findings

| source | as written | input that shows it | evidently intended | confidence | as-written member | corrected member |
|---|---|---|---|---|---|---|
| src/Searcher.cs:33 | `if (args.Length < i + 2)` reads `args[i + 2]` only when that index is out of range. Every tolerance is therefore 0, a `?` argument in last position throws, and a tolerance argument is skipped as a stray argument | `?texcoord1 0x1C0 3` gives tolerance 0 instead of 3 | read the tolerance when `i + 2 < args.Length` and it parses as a byte | not executed | Searcher.AsWrittenTokenizerDropsTolerance | Searcher.SearchCommandRunsRenderedParameters |
