/** `MaterialSearcher`: the `?key value` search over the reference corpus
    and the scored search for replacement candidates. */
module Searcher {
  import opened Wrappers
  import opened Text
  import opened Materials
  import opened Comparisons
  import Seqs

  /** One search predicate: a member name, the expected value and the
      texcoord tolerance. */
  datatype SearchParameter = SearchParameter(materialKey: string, materialValue: string, texcoordMatchCount: Byte)

  /** An argument index past the end of the argument list. */
  datatype TokenizeError = IndexOutOfRange

  // ---------------------------------------------------------------------
  // The argument tokenizer

  /** The constructor's loop over the arguments, as written, applied to the
      arguments from the current index on. An argument starting with `?`
      names a member and the next argument is its value. The guard that
      should look for an optional tolerance after the value is inverted: it
      holds only when fewer than two arguments remain, and then reads past
      the end. Every parameter therefore gets tolerance 0, and a `?`
      argument in last position fails. */
  function TokenizeSearchArgs(args: seq<string>): (r: Result<seq<SearchParameter>, TokenizeError>)
    ensures r.Success? ==> forall p :: p in r.value ==> p.texcoordMatchCount == 0
    ensures r.Failure? <==> exists i :: 0 <= i < |args| && AsWrittenFailsAt(args, i)
    decreases |args|
  {
    if |args| == 0 then Success([])
    else if !StartsWith(args[0], "?") then
      AsWrittenFailsAtShift(args);
      TokenizeSearchArgs(args[1..])
    else if |args| < 2 then
      assert AsWrittenFailsAt(args, 0);
      Failure(IndexOutOfRange)
    else
      var parameter := SearchParameter(args[0][1..], args[1], 0);
      AsWrittenFailsAtSkip(args);
      match TokenizeSearchArgs(args[2..])
      case Failure(e) => Failure(e)
      case Success(rest) => Success([parameter] + rest)
  }

  /** Position `i` is visited by the as-written loop, holds a `?` argument,
      and is the last argument. */
  predicate AsWrittenFailsAt(args: seq<string>, i: nat)
    requires i < |args|
  {
    i == |args| - 1 && StartsWith(args[i], "?") && AsWrittenVisits(args, i)
  }

  /** The as-written loop visits position `i`: counting from the start,
      every `?` argument before it consumes its value too. */
  predicate AsWrittenVisits(args: seq<string>, i: nat)
    decreases i
  {
    if i == 0 then true
    else if |args| == 0 then false
    else if !StartsWith(args[0], "?") then AsWrittenVisits(args[1..], i - 1)
    else |args| >= 2 && i >= 2 && AsWrittenVisits(args[2..], i - 2)
  }

  lemma AsWrittenFailsAtShift(args: seq<string>)
    requires |args| > 0 && !StartsWith(args[0], "?")
    ensures (exists i :: 0 <= i < |args| && AsWrittenFailsAt(args, i))
        <==> (exists i :: 0 <= i < |args| - 1 && AsWrittenFailsAt(args[1..], i))
  {
    if exists i :: 0 <= i < |args| && AsWrittenFailsAt(args, i) {
      var i :| 0 <= i < |args| && AsWrittenFailsAt(args, i);
      assert i != 0;
      assert AsWrittenFailsAt(args[1..], i - 1);
    }
    if exists i :: 0 <= i < |args| - 1 && AsWrittenFailsAt(args[1..], i) {
      var i :| 0 <= i < |args| - 1 && AsWrittenFailsAt(args[1..], i);
      assert args[1..][i] == args[i + 1];
      assert AsWrittenFailsAt(args, i + 1);
    }
  }

  lemma AsWrittenFailsAtSkip(args: seq<string>)
    requires |args| >= 2 && StartsWith(args[0], "?")
    ensures (exists i :: 0 <= i < |args| && AsWrittenFailsAt(args, i))
        <==> (exists i :: 0 <= i < |args| - 2 && AsWrittenFailsAt(args[2..], i))
  {
    if exists i :: 0 <= i < |args| && AsWrittenFailsAt(args, i) {
      var i :| 0 <= i < |args| && AsWrittenFailsAt(args, i);
      assert i >= 2;
      assert AsWrittenFailsAt(args[2..], i - 2);
    }
    if exists i :: 0 <= i < |args| - 2 && AsWrittenFailsAt(args[2..], i) {
      var i :| 0 <= i < |args| - 2 && AsWrittenFailsAt(args[2..], i);
      assert args[2..][i] == args[i + 2];
      assert AsWrittenFailsAt(args, i + 2);
    }
  }

  /** The tokenizer with the guard the loop evidently intends: when an
      argument follows the value and parses as a byte, it is the texcoord
      tolerance and is consumed too. A `?` argument without a value fails. */
  function TokenizeSearchArgsIntended(args: seq<string>): (r: Result<seq<SearchParameter>, TokenizeError>)
    ensures r.Success? ==> forall p :: p in r.value ==> exists i :: 0 <= i < |args| && args[i] == "?" + p.materialKey
    decreases |args|
  {
    if |args| == 0 then Success([])
    else if !StartsWith(args[0], "?") then
      var r := TokenizeSearchArgsIntended(args[1..]);
      assert forall i :: 0 <= i < |args| - 1 ==> args[1..][i] == args[i + 1];
      r
    else if |args| < 2 then Failure(IndexOutOfRange)
    else
      var tolerance := if |args| > 2 then ParseByte(args[2]) else None;
      var skip := if tolerance.Some? then 3 else 2;
      var parameter := SearchParameter(args[0][1..], args[1], if tolerance.Some? then tolerance.value else 0);
      assert args[0] == "?" + parameter.materialKey;
      match TokenizeSearchArgsIntended(args[skip..])
      case Failure(e) => Failure(e)
      case Success(rest) =>
        assert forall i :: 0 <= i < |args| - skip ==> args[skip..][i] == args[i + skip];
        Success([parameter] + rest)
  }

  /** The command line that asks for `parameters`: `?key value tolerance`
      for each. */
  function RenderSearchArgs(parameters: seq<SearchParameter>): (args: seq<string>)
    ensures |args| == 3 * |parameters|
  {
    if |parameters| == 0 then []
    else
      var p := parameters[0];
      ["?" + p.materialKey, p.materialValue, Digits(p.texcoordMatchCount, 10)] + RenderSearchArgs(parameters[1..])
  }

  function WithoutTolerance(parameters: seq<SearchParameter>): (r: seq<SearchParameter>)
    ensures |r| == |parameters|
    ensures forall i :: 0 <= i < |r| ==> r[i] == parameters[i].(texcoordMatchCount := 0)
  {
    seq(|parameters|, i requires 0 <= i < |parameters| => parameters[i].(texcoordMatchCount := 0))
  }

  lemma DigitsNotSearchKey(n: nat)
    ensures !StartsWith(Digits(n, 10), "?")
  {
    assert Digits(n, 10)[0] != '?';
  }

  /** The corrected tokenizer reads back every parameter of a rendered
      command line, tolerance included. */
  lemma {:induction false} IntendedTokenizerRoundTrip(parameters: seq<SearchParameter>)
    ensures TokenizeSearchArgsIntended(RenderSearchArgs(parameters)) == Success(parameters)
    decreases |parameters|
  {
    if |parameters| != 0 {
      var p := parameters[0];
      var args := RenderSearchArgs(parameters);
      assert args[3..] == RenderSearchArgs(parameters[1..]);
      assert StartsWith(args[0], "?") && args[0][1..] == p.materialKey;
      ParseByteRoundTrip(p.texcoordMatchCount);
      IntendedTokenizerRoundTrip(parameters[1..]);
      assert [p] + parameters[1..] == parameters;
    }
  }

  /** The tokenizer as written reads the same command line back with every
      tolerance replaced by 0: the tolerance argument is skipped as a
      stray argument. */
  lemma {:induction false} AsWrittenTokenizerDropsTolerance(parameters: seq<SearchParameter>)
    ensures TokenizeSearchArgs(RenderSearchArgs(parameters)) == Success(WithoutTolerance(parameters))
    decreases |parameters|
  {
    if |parameters| != 0 {
      var p := parameters[0];
      var args := RenderSearchArgs(parameters);
      assert args[3..] == RenderSearchArgs(parameters[1..]);
      assert args[2..][1..] == args[3..];
      assert StartsWith(args[0], "?") && args[0][1..] == p.materialKey;
      DigitsNotSearchKey(p.texcoordMatchCount);
      AsWrittenTokenizerDropsTolerance(parameters[1..]);
      assert [p.(texcoordMatchCount := 0)] + WithoutTolerance(parameters[1..]) == WithoutTolerance(parameters);
    }
  }

  /** `?texcoord1 0x1C0 3` asks for tolerance 3; as written it is read with
      tolerance 0, while the corrected tokenizer keeps the 3. */
  lemma ToleranceLostExample()
    ensures TokenizeSearchArgs(["?texcoord1", "0x1C0", "3"]) == Success([SearchParameter("texcoord1", "0x1C0", 0)])
    ensures TokenizeSearchArgsIntended(["?texcoord1", "0x1C0", "3"]) == Success([SearchParameter("texcoord1", "0x1C0", 3)])
  {
    var args := ["?texcoord1", "0x1C0", "3"];
    assert StartsWith(args[0], "?") by { assert args[0][..1] == "?"; }
    assert args[0][1..] == "texcoord1";
    assert !StartsWith(args[2], "?") by { assert args[2][0] == '3'; }
    assert args[2..] == ["3"] && ["3"][1..] == [];
    assert TokenizeSearchArgs(args[2..]) == Success([]);
    assert ParseByte("3") == Some(3) by { ParseByteRoundTrip(3); assert Digits(3, 10) == "3"; }
    assert args[3..] == [];
    var asWritten, intended := SearchParameter("texcoord1", "0x1C0", 0), SearchParameter("texcoord1", "0x1C0", 3);
    assert [asWritten] + [] == [asWritten] && [intended] + [] == [intended];
    assert TokenizeSearchArgs(args) == Success([asWritten]);
    assert TokenizeSearchArgsIntended(args[3..]) == Success([]);
    assert TokenizeSearchArgsIntended(args) == Success([intended]);
  }

  // ---------------------------------------------------------------------
  // Search keys

  /** The integer-valued members a search can name. */
  datatype UnsignedField =
    | DrawMethod | Field49 | Field4A | Field4B | Field4C | Field4D
    | Field90 | Field96 | Field5C | DisableBackfaceCulling | Field98

  /** What a search key refers to. `FlagBit(16)` does not occur: the
      `hasattributes`/`bit16` key asks for an attribute kind instead. */
  datatype Member =
    | Name
    | FlagBit(bit: nat)
    | AttributeType
    | Reflectivity            // Field40
    | OutlineIndex            // Field44
    | Unsigned(field: UnsignedField)
    | Field94
    | Texcoord1               // Field6C
    | Texcoord2               // Field70

  function UnsignedValue(m: Material, f: UnsignedField): nat {
    match f
    case DrawMethod => m.drawMethod
    case Field49 => m.field49
    case Field4A => m.field4A
    case Field4B => m.field4B
    case Field4C => m.field4C
    case Field4D => m.field4D
    case Field90 => m.field90
    case Field96 => m.field96
    case Field5C => m.field5C
    case DisableBackfaceCulling => m.disableBackfaceCulling
    case Field98 => m.field98
  }

  /** The recognised keys in lower case, in the order they are tried,
      grouped as the branches of the source are. */
  const KeyTable: seq<(string, Member)> :=
    NameKeys + (FlagKeysLow + (FlagKeysMiddle + (FlagKeysHigh + (FlagKeysTop + (FieldKeys + TexcoordKeys)))))

  const NameKeys: seq<(string, Member)> := [("name", Name)]

  /** Flag bits 0..7. */
  const FlagKeysLow: seq<(string, Member)> := [
    ("bit0", FlagBit(0)), ("bit1", FlagBit(1)), ("bit2", FlagBit(2)), ("bit3", FlagBit(3)),
    ("enablevertcolors", FlagBit(4)), ("bit4", FlagBit(4)),
    ("opaquealpha1", FlagBit(5)), ("bit5", FlagBit(5)),
    ("bit6", FlagBit(6)),
    ("enablelight", FlagBit(7)), ("bit7", FlagBit(7))
  ]

  /** Flag bits 8..15. */
  const FlagKeysMiddle: seq<(string, Member)> := [
    ("bit8", FlagBit(8)), ("bit9", FlagBit(9)), ("bit10", FlagBit(10)),
    ("enablelight2", FlagBit(11)), ("bit11", FlagBit(11)),
    ("purplewireframe", FlagBit(12)), ("bit12", FlagBit(12)),
    ("opaquealpha2", FlagBit(13)), ("bit13", FlagBit(13)),
    ("receiveshadow", FlagBit(14)), ("bit14", FlagBit(14)),
    ("castshadow", FlagBit(15)), ("bit15", FlagBit(15))
  ]

  /** Flag bits 16..23; bit 16 asks for an attribute kind. */
  const FlagKeysHigh: seq<(string, Member)> := [
    ("hasattributes", AttributeType), ("bit16", AttributeType),
    ("hasoutline", FlagBit(17)), ("bit17", FlagBit(17)),
    ("bit18", FlagBit(18)),
    ("disablebloom", FlagBit(19)), ("bit19", FlagBit(19)),
    ("hasdiffusemap", FlagBit(20)), ("bit20", FlagBit(20)),
    ("hasnormalmap", FlagBit(21)), ("bit21", FlagBit(21)),
    ("hasspecularmap", FlagBit(22)), ("bit22", FlagBit(22)),
    ("hasreflectionmap", FlagBit(23)), ("bit23", FlagBit(23))
  ]

  /** Flag bits 24..31. */
  const FlagKeysTop: seq<(string, Member)> := [
    ("hashighlightmap", FlagBit(24)), ("bit24", FlagBit(24)),
    ("hasglowmap", FlagBit(25)), ("bit25", FlagBit(25)),
    ("hasnightmap", FlagBit(26)), ("bit26", FlagBit(26)),
    ("hasdetailmap", FlagBit(27)), ("bit27", FlagBit(27)),
    ("hasshadowmap", FlagBit(28)), ("bit28", FlagBit(28)),
    ("bit29", FlagBit(29)), ("bit30", FlagBit(30)), ("bit31", FlagBit(31))
  ]

  /** The scalar fields. */
  const FieldKeys: seq<(string, Member)> := [
    ("reflectivity", Reflectivity), ("field40", Reflectivity),
    ("outlineindex", OutlineIndex), ("field44", OutlineIndex),
    ("drawmethod", Unsigned(DrawMethod)), ("field48", Unsigned(DrawMethod)),
    ("field49", Unsigned(Field49)), ("field4a", Unsigned(Field4A)),
    ("field4b", Unsigned(Field4B)), ("field4c", Unsigned(Field4C)),
    ("hightlightmapblendmode", Unsigned(Field4D)), ("field4d", Unsigned(Field4D)),
    ("field90", Unsigned(Field90)),
    ("field94", Field94),
    ("field96", Unsigned(Field96)), ("field5c", Unsigned(Field5C))
  ]

  /** The texcoord words and the two trailing fields. */
  const TexcoordKeys: seq<(string, Member)> := [
    ("texcoord1", Texcoord1), ("field6c", Texcoord1),
    ("texcoord2", Texcoord2), ("field70", Texcoord2),
    ("disablebackfaceculling", Unsigned(DisableBackfaceCulling)),
    ("field98", Unsigned(Field98))
  ]

  /** The member of the first table row whose key is `key`. */
  function Lookup(table: seq<(string, Member)>, key: string): (r: Option<Member>)
    ensures r.None? <==> forall i :: 0 <= i < |table| ==> table[i].0 != key
    ensures r.Some? ==> exists i :: 0 <= i < |table| && table[i] == (key, r.value)
                          && forall j :: 0 <= j < i ==> table[j].0 != key
    decreases |table|
  {
    if |table| == 0 then None
    else if table[0].0 == key then Some(table[0].1)
    else
      var r := Lookup(table[1..], key);
      assert forall i :: 0 <= i < |table| - 1 ==> table[1..][i] == table[i + 1];
      r
  }

  /** Keys are matched after lower-casing. */
  function ResolveKey(key: string): Option<Member> {
    Lookup(KeyTable, ToLower(key))
  }

  /** Looking up in a table made of two parts: the first part is tried
      first, the second only when the first has no such key. */
  lemma {:induction false} LookupAppend(a: seq<(string, Member)>, b: seq<(string, Member)>, key: string)
    ensures Lookup(a + b, key) == if Lookup(a, key).Some? then Lookup(a, key) else Lookup(b, key)
    decreases |a|
  {
    if |a| == 0 {
      assert a + b == b;
    } else {
      assert (a + b)[0] == a[0];
      assert (a + b)[1..] == a[1..] + b;
      LookupAppend(a[1..], b, key);
    }
  }

  /** A group that has no row for the key is passed over. */
  lemma LookupSkips(a: seq<(string, Member)>, b: seq<(string, Member)>, key: string)
    requires forall i :: 0 <= i < |a| ==> a[i].0 != key
    ensures Lookup(a + b, key) == Lookup(b, key)
  {
    LookupAppend(a, b, key);
  }

  /** No row of the group carries the key. */
  predicate Lacks(group: seq<(string, Member)>, key: string) {
    forall i :: 0 <= i < |group| ==> group[i].0 != key
  }

  /** A lower-case key that no flag group carries resolves among the
      scalar fields and texcoords. */
  lemma ResolvePastFlags(key: string)
    requires ToLower(key) == key
    requires Lacks(NameKeys, key) && Lacks(FlagKeysLow, key) && Lacks(FlagKeysMiddle, key)
    requires Lacks(FlagKeysHigh, key) && Lacks(FlagKeysTop, key)
    ensures ResolveKey(key) == Lookup(FieldKeys + TexcoordKeys, key)
  {
    var t6 := FieldKeys + TexcoordKeys;
    var t5 := FlagKeysTop + t6;
    var t4 := FlagKeysHigh + t5;
    var t3 := FlagKeysMiddle + t4;
    var t2 := FlagKeysLow + t3;
    LookupSkips(NameKeys, t2, key);
    LookupSkips(FlagKeysLow, t3, key);
    LookupSkips(FlagKeysMiddle, t4, key);
    LookupSkips(FlagKeysHigh, t5, key);
    LookupSkips(FlagKeysTop, t6, key);
  }

  /** A lower-case key that no group before the texcoords carries
      resolves among the texcoords. */
  lemma ResolvePastFields(key: string)
    requires ToLower(key) == key
    requires Lacks(NameKeys, key) && Lacks(FlagKeysLow, key) && Lacks(FlagKeysMiddle, key)
    requires Lacks(FlagKeysHigh, key) && Lacks(FlagKeysTop, key) && Lacks(FieldKeys, key)
    ensures ResolveKey(key) == Lookup(TexcoordKeys, key)
  {
    ResolvePastFlags(key);
    LookupSkips(FieldKeys, TexcoordKeys, key);
  }

  lemma FlagGroupsLackTexcoord1()
    ensures Lacks(NameKeys, "texcoord1") && Lacks(FlagKeysLow, "texcoord1") && Lacks(FlagKeysMiddle, "texcoord1")
    ensures Lacks(FlagKeysHigh, "texcoord1") && Lacks(FlagKeysTop, "texcoord1") && Lacks(FieldKeys, "texcoord1")
  {
  }

  /** `?texcoord1`, in any case, asks for the first texcoord word. */
  lemma Texcoord1Key(key: string)
    requires ToLower(key) == "texcoord1"
    ensures ResolveKey(key) == Some(Texcoord1)
  {
    var k := ToLower(key);
    ResolveKeyIgnoresCase(key);
    assert ToLower("texcoord1") == "texcoord1";
    FlagGroupsLackTexcoord1();
    ResolvePastFields(k);
    assert TexcoordKeys[0] == ("texcoord1", Texcoord1);
  }

  /** `?name`, in any case, asks for the material name. */
  lemma NameKey(key: string)
    requires ToLower(key) == "name"
    ensures ResolveKey(key) == Some(Name)
  {
    var k := ToLower(key);
    ResolveKeyIgnoresCase(key);
    assert ToLower("name") == "name";
    var rest := FlagKeysLow + (FlagKeysMiddle + (FlagKeysHigh + (FlagKeysTop + (FieldKeys + TexcoordKeys))));
    LookupAppend(NameKeys, rest, k);
  }

  /** The row at `i` is the first one carrying the key. */
  lemma {:induction false} LookupAt(table: seq<(string, Member)>, i: nat, key: string)
    requires i < |table| && table[i].0 == key
    requires forall j :: 0 <= j < i ==> table[j].0 != key
    ensures Lookup(table, key) == Some(table[i].1)
    decreases i
  {
    if i > 0 {
      assert table[1..][i - 1] == table[i];
      LookupAt(table[1..], i - 1, key);
    }
  }

  /** A lower-case key that neither the name nor flag bits 0..7 carry
      resolves from flag bit 8 on. */
  lemma ResolvePastLowFlags(key: string)
    requires ToLower(key) == key
    requires Lacks(NameKeys, key) && Lacks(FlagKeysLow, key)
    ensures ResolveKey(key) == Lookup(FlagKeysMiddle + (FlagKeysHigh + (FlagKeysTop + (FieldKeys + TexcoordKeys))), key)
  {
    var t3 := FlagKeysMiddle + (FlagKeysHigh + (FlagKeysTop + (FieldKeys + TexcoordKeys)));
    LookupSkips(NameKeys, FlagKeysLow + t3, key);
    LookupSkips(FlagKeysLow, t3, key);
  }

  lemma GroupsBeforeMiddleLackPurplewireframe()
    ensures Lacks(NameKeys, "purplewireframe") && Lacks(FlagKeysLow, "purplewireframe")
    ensures forall i :: 0 <= i < 5 ==> FlagKeysMiddle[i].0 != "purplewireframe"
    ensures FlagKeysMiddle[5] == ("purplewireframe", FlagBit(12))
  {
  }

  lemma MiddleFlagsResolvePurplewireframe(k: string)
    requires k == "purplewireframe"
    ensures Lookup(FlagKeysMiddle + (FlagKeysHigh + (FlagKeysTop + (FieldKeys + TexcoordKeys))), k) == Some(FlagBit(12))
  {
    GroupsBeforeMiddleLackPurplewireframe();
    var t4 := FlagKeysHigh + (FlagKeysTop + (FieldKeys + TexcoordKeys));
    LookupAppend(FlagKeysMiddle, t4, k);
    LookupAt(FlagKeysMiddle, 5, k);
  }

  /** `?purplewireframe`, in any case, asks for flag bit 12. */
  lemma PurpleWireframeKey(key: string)
    requires ToLower(key) == "purplewireframe"
    ensures ResolveKey(key) == Some(FlagBit(12))
  {
    var k := ToLower(key);
    ResolveKeyIgnoresCase(key);
    assert ToLower("purplewireframe") == "purplewireframe";
    GroupsBeforeMiddleLackPurplewireframe();
    ResolvePastLowFlags(k);
    MiddleFlagsResolvePurplewireframe(k);
  }

  lemma FlagGroupsLackField92()
    ensures Lacks(NameKeys, "field92") && Lacks(FlagKeysLow, "field92") && Lacks(FlagKeysMiddle, "field92")
    ensures Lacks(FlagKeysHigh, "field92") && Lacks(FlagKeysTop, "field92")
  {
  }

  lemma LastGroupsLackField92()
    ensures Lacks(FieldKeys, "field92") && Lacks(TexcoordKeys, "field92")
  {
  }

  /** The key table has no row for `field92`, unlike its neighbours
      `field90` and `field94`: such a predicate never matches. */
  lemma Field92Unknown(key: string)
    requires ToLower(key) == "field92"
    ensures ResolveKey(key) == None
  {
    var k := ToLower(key);
    ResolveKeyIgnoresCase(key);
    assert ToLower("field92") == "field92";
    FlagGroupsLackField92();
    LastGroupsLackField92();
    ResolvePastFields(k);
  }

  lemma ResolveKeyIgnoresCase(key: string)
    ensures ResolveKey(ToLower(key)) == ResolveKey(key)
  {
    ToLowerIdempotent(key);
  }

  // ---------------------------------------------------------------------
  // Evaluating one predicate

  /** The parts of the runtime the search calls but the model does not
      define: `float.Parse` (`None` when it throws) and
      `HasAttributeOfType`. */
  datatype Collaborators = Collaborators(
    parseFloat: string -> Option<Float>,
    hasAttributeOfType: (Material, int) -> bool)

  /** A value that the member's parser rejects. */
  datatype SearchError = InvalidValue(key: string, value: string)

  /** `ParseTexcoord`: a `0x` prefix selects hexadecimal. */
  function ParseTexcoord(s: string): (r: Option<nat>)
    ensures r.Some? ==> r.value <= UInt32Max
    ensures StartsWith(s, "0x") ==> r == ParseHex(s[2..])
  {
    if StartsWith(s, "0x") then ParseHex(s[2..]) else ParseUInt(s)
  }

  /** A word written in hexadecimal with the `0x` prefix is read back. */
  lemma ParseTexcoordHexRoundTrip(n: nat)
    requires n <= UInt32Max
    ensures ParseTexcoord("0x" + Digits(n, 16)) == Some(n)
  {
    var hex := "0x" + Digits(n, 16);
    assert StartsWith(hex, "0x") && hex[2..] == Digits(n, 16);
    ParseHexRoundTrip(n);
  }

  /** A word written in decimal is read back. */
  lemma ParseTexcoordDecimalRoundTrip(n: nat)
    requires n <= UInt32Max
    ensures ParseTexcoord(Digits(n, 10)) == Some(n)
  {
    var dec := Digits(n, 10);
    DigitsRoundTrip(n, 10);
    DecimalIsNotHex(dec);
    ParseUIntRoundTrip(n);
  }

  /** A decimal digit string never carries the `0x` prefix. */
  lemma DecimalIsNotHex(s: string)
    requires DigitsValue(s, 10).Some?
    ensures !StartsWith(s, "0x")
  {
    if |s| >= 2 {
      var c := s[1];
      assert DigitValue(c, 10).Some?;
      assert c != 'x';
      assert s[..2][1] == c;
    }
  }

  /** The value parses as the member requires. */
  predicate ValueParses(member: Member, value: string, env: Collaborators) {
    match member
    case Name => true
    case FlagBit(_) => ParseInt(value).Some?
    case AttributeType => ParseInt(value).Some?
    case Reflectivity => env.parseFloat(value).Some?
    case OutlineIndex => env.parseFloat(value).Some?
    case Unsigned(_) => ParseUInt(value).Some?
    case Field94 => ParseTexcoord(value).Some?
    case Texcoord1 => ParseTexcoord(value).Some?
    case Texcoord2 => ParseTexcoord(value).Some?
  }

  /** The word a texcoord member reads and the value it is compared with
      satisfy the parameter's tolerance: exact equality at tolerance 0,
      otherwise acceptance by the channel matcher with the record's word as
      the reference. */
  predicate TexcoordMatches(word: bv32, value: nat, tolerance: nat)
    requires value <= UInt32Max
  {
    if tolerance == 0 then word == value as bv32
    else !TexcoordRejects(word, value as bv32, tolerance)
  }

  /** The test of a texcoord member whose record word is `word`. */
  function TexcoordMember(word: bv32, p: SearchParameter): (r: Result<bool, SearchError>)
    ensures r.Failure? <==> ParseTexcoord(p.materialValue).None?
    ensures ParseTexcoord(p.materialValue).Some? ==>
      r == Success(TexcoordMatches(word, ParseTexcoord(p.materialValue).value, p.texcoordMatchCount))
  {
    match ParseTexcoord(p.materialValue)
    case None => Failure(InvalidValue(p.materialKey, p.materialValue))
    case Some(v) =>
      if p.texcoordMatchCount != 0 then
        Success(FindReducedTexcoord(word, v as bv32, p.texcoordMatchCount) != -1)
      else Success(word == v as bv32)
  }

  /** The test a resolved key performs on `material`; a value the member
      cannot parse is an error. */
  function EvaluateMember(member: Member, p: SearchParameter, material: Material, env: Collaborators): (r: Result<bool, SearchError>)
    ensures r.Failure? <==> !ValueParses(member, p.materialValue, env)
    ensures member == Texcoord1 && ParseTexcoord(p.materialValue).Some? ==>
      r == Success(TexcoordMatches(material.field6C, ParseTexcoord(p.materialValue).value, p.texcoordMatchCount))
    ensures member == Texcoord2 && ParseTexcoord(p.materialValue).Some? ==>
      r == Success(TexcoordMatches(material.field70, ParseTexcoord(p.materialValue).value, p.texcoordMatchCount))
    ensures member == Name ==> (r == Success(true) <==> ToLower(material.name) == ToLower(p.materialValue))
  {
    var value := p.materialValue;
    var invalid := Failure(InvalidValue(p.materialKey, value));
    match member
    case Name => Success(ToLower(material.name) == ToLower(value))
    case FlagBit(bit) =>
      (match ParseInt(value)
       case None => invalid
       case Some(v) => Success(Bit(material.flags, bit) == (v != 0)))
    case AttributeType =>
      (match ParseInt(value)
       case None => invalid
       case Some(v) => Success(env.hasAttributeOfType(material, v)))
    case Reflectivity =>
      (match env.parseFloat(value)
       case None => invalid
       case Some(f) => Success(material.field40 == f))
    case OutlineIndex =>
      (match env.parseFloat(value)
       case None => invalid
       case Some(f) => Success(material.field44 == f))
    case Unsigned(field) =>
      (match ParseUInt(value)
       case None => invalid
       case Some(v) => Success(UnsignedValue(material, field) == v))
    case Field94 =>
      (match ParseTexcoord(value)
       case None => invalid
       case Some(v) => Success(material.field94 == v))
    case Texcoord1 => TexcoordMember(material.field6C, p)
    case Texcoord2 => TexcoordMember(material.field70, p)
  }

  /** `CompareMaterialMemberValue`: whether `material` satisfies one search
      predicate; an unknown key is not satisfied, and a value its member
      cannot parse is an error. */
  function CompareMaterialMemberValue(p: SearchParameter, material: Material, env: Collaborators): (r: Result<bool, SearchError>)
    ensures ResolveKey(p.materialKey).None? ==> r == Success(false)
    ensures r.Failure? <==> ResolveKey(p.materialKey).Some? && !ValueParses(ResolveKey(p.materialKey).value, p.materialValue, env)
  {
    match ResolveKey(p.materialKey)
    case None => Success(false)
    case Some(member) => EvaluateMember(member, p, material, env)
  }

  /** A texcoord predicate with tolerance 0 asks for the exact word; with a
      positive tolerance it asks the channel matcher, the record's word
      being the reference. */
  lemma TexcoordPredicate(p: SearchParameter, material: Material, env: Collaborators, v: nat)
    requires ResolveKey(p.materialKey) == Some(Texcoord1)
    requires ParseTexcoord(p.materialValue) == Some(v)
    ensures p.texcoordMatchCount == 0 ==>
      CompareMaterialMemberValue(p, material, env) == Success(material.field6C == v as bv32)
    ensures p.texcoordMatchCount > 0 ==>
      CompareMaterialMemberValue(p, material, env) == Success(!TexcoordRejects(material.field6C, v as bv32, p.texcoordMatchCount))
  {
  }

  /** A flag predicate holds when the bit is set and the value is nonzero,
      or the bit is clear and the value is zero. */
  lemma FlagPredicate(p: SearchParameter, material: Material, env: Collaborators, bit: nat, v: int)
    requires ResolveKey(p.materialKey) == Some(FlagBit(bit))
    requires ParseInt(p.materialValue) == Some(v)
    ensures CompareMaterialMemberValue(p, material, env) == Success(Bit(material.flags, bit) <==> v != 0)
  {
  }

  /** A name predicate does not depend on the case of the value. */
  lemma NamePredicateIgnoresCase(p: SearchParameter, material: Material, env: Collaborators)
    requires ResolveKey(p.materialKey) == Some(Name)
    ensures CompareMaterialMemberValue(p.(materialValue := ToLower(p.materialValue)), material, env)
         == CompareMaterialMemberValue(p, material, env)
  {
    ToLowerIdempotent(p.materialValue);
  }

  /** The predicate `?texcoord1 448 3` on a record: the channel matcher,
      with the record's word as reference, must not reject 448 at
      tolerance 3. */
  lemma Texcoord1PredicateExample(material: Material, env: Collaborators)
    ensures CompareMaterialMemberValue(SearchParameter("texcoord1", "448", 3), material, env)
         == Success(!TexcoordRejects(material.field6C, 448, 3))
  {
    var p := SearchParameter("texcoord1", "448", 3);
    Texcoord1Key(p.materialKey);
    DecimalTexcoord448();
    TexcoordPredicate(p, material, env, 448);
  }

  lemma DecimalTexcoord448()
    ensures ParseTexcoord("448") == Some(448)
  {
    ParseUIntRoundTrip(448);
    assert Digits(448, 10) == "448";
    assert !StartsWith("448", "0x");
  }

  /** The predicate `?purplewireframe 1` holds exactly on records with flag
      bit 12 set. */
  lemma PurpleWireframePredicateExample(material: Material, env: Collaborators)
    ensures CompareMaterialMemberValue(SearchParameter("purplewireframe", "1", 0), material, env)
         == Success(Bit(material.flags, 12))
  {
    var p := SearchParameter("purplewireframe", "1", 0);
    PurpleWireframeKey(p.materialKey);
    assert ParseInt(p.materialValue) == Some(1) by {
      ParseIntRoundTrip(1);
      assert FormatInt(1) == "1";
    }
    FlagPredicate(p, material, env, 12, 1);
  }

  // ---------------------------------------------------------------------
  // The search

  /** Outcome `k` is an error and all those before it hold. */
  predicate FirstFailure(outcomes: seq<Result<bool, SearchError>>, k: nat)
    requires k < |outcomes|
  {
    outcomes[k].Failure? && forall j :: 0 <= j < k ==> outcomes[j] == Success(true)
  }

  /** Short-circuit conjunction of outcomes taken in order: the first
      `false` or error ends the evaluation. */
  function AllHold(outcomes: seq<Result<bool, SearchError>>): (r: Result<bool, SearchError>)
    ensures r == Success(true) <==> forall k :: 0 <= k < |outcomes| ==> outcomes[k] == Success(true)
    ensures r.Failure? <==> exists k :: 0 <= k < |outcomes| && FirstFailure(outcomes, k)
    decreases |outcomes|
  {
    if |outcomes| == 0 then Success(true)
    else
      var rest := outcomes[1..];
      assert forall k :: 0 <= k < |rest| ==> rest[k] == outcomes[k + 1];
      match outcomes[0]
      case Failure(e) =>
        assert FirstFailure(outcomes, 0);
        Failure(e)
      case Success(b) =>
        if !b then
          assert forall k :: 0 <= k < |outcomes| ==> !FirstFailure(outcomes, k);
          Success(false)
        else
          var r := AllHold(rest);
          assert r.Failure? ==> exists k :: 0 <= k < |outcomes| && FirstFailure(outcomes, k) by {
            if r.Failure? {
              var k :| 0 <= k < |rest| && FirstFailure(rest, k);
              assert FirstFailure(outcomes, k + 1);
            }
          }
          assert (exists k :: 0 <= k < |outcomes| && FirstFailure(outcomes, k)) ==> r.Failure? by {
            if exists k :: 0 <= k < |outcomes| && FirstFailure(outcomes, k) {
              var k :| 0 <= k < |outcomes| && FirstFailure(outcomes, k);
              assert k != 0;
              assert FirstFailure(rest, k - 1);
            }
          }
          r
  }

  /** The outcome of each predicate on `material`. */
  function Outcomes(parameters: seq<SearchParameter>, material: Material, env: Collaborators): (r: seq<Result<bool, SearchError>>)
    ensures |r| == |parameters|
    ensures forall k :: 0 <= k < |parameters| ==> r[k] == CompareMaterialMemberValue(parameters[k], material, env)
  {
    seq(|parameters|, k requires 0 <= k < |parameters| => CompareMaterialMemberValue(parameters[k], material, env))
  }

  /** The inner loop of `SearchForMaterial`: whether `material` satisfies
      every predicate, evaluated in order up to the first that fails. */
  function MatchesAll(parameters: seq<SearchParameter>, material: Material, env: Collaborators): (r: Result<bool, SearchError>)
    ensures r == Success(true) <==>
      forall k :: 0 <= k < |parameters| ==> CompareMaterialMemberValue(parameters[k], material, env) == Success(true)
    ensures r.Failure? <==> exists k :: 0 <= k < |parameters| && FirstFailure(Outcomes(parameters, material, env), k)
  {
    AllHold(Outcomes(parameters, material, env))
  }

  /** A reference entry the search reports: at least one predicate, and all
      of them hold. */
  predicate Selected(parameters: seq<SearchParameter>, env: Collaborators, e: Entry) {
    |parameters| > 0 && MatchesAll(parameters, e.material, env) == Success(true)
  }

  function SelectedBy(parameters: seq<SearchParameter>, env: Collaborators): Entry -> bool {
    e => Selected(parameters, env, e)
  }

  /** Evaluating the predicates on the entry throws. */
  predicate Throws(parameters: seq<SearchParameter>, env: Collaborators, e: Entry) {
    |parameters| > 0 && MatchesAll(parameters, e.material, env).Failure?
  }

  function SearchLabel(e: Entry): string {
    e.fileName + " -> " + e.material.name
  }

  function Labels(entries: seq<Entry>): (r: seq<string>)
    ensures |r| == |entries|
    ensures forall i :: 0 <= i < |entries| ==> r[i] == SearchLabel(entries[i])
  {
    seq(|entries|, i requires 0 <= i < |entries| => SearchLabel(entries[i]))
  }

  lemma LabelsCons(e: Entry, entries: seq<Entry>)
    ensures Labels([e] + entries) == [SearchLabel(e)] + Labels(entries)
  {
  }

  lemma SelectedStep(entries: seq<Entry>, keep: Entry -> bool)
    requires |entries| > 0
    ensures Labels(Seqs.Filter(entries, keep))
         == (if keep(entries[0]) then [SearchLabel(entries[0])] else []) + Labels(Seqs.Filter(entries[1..], keep))
  {
    if keep(entries[0]) {
      LabelsCons(entries[0], Seqs.Filter(entries[1..], keep));
    }
  }

  /** The loops of `SearchForMaterial` over entries in scan order. */
  function SearchEntries(entries: seq<Entry>, parameters: seq<SearchParameter>, env: Collaborators): (r: Result<seq<string>, SearchError>)
    ensures r.Failure? <==> exists e :: e in entries && Throws(parameters, env, e)
    ensures r.Success? ==> r.value == Labels(Seqs.Filter(entries, SelectedBy(parameters, env)))
    decreases |entries|
  {
    if |entries| == 0 then Success([])
    else
      var e := entries[0];
      var rest := SearchEntries(entries[1..], parameters, env);
      assert forall x :: x in entries <==> x == e || x in entries[1..];
      if Throws(parameters, env, e) then
        Failure(MatchesAll(parameters, e.material, env).error)
      else if rest.Failure? then
        rest
      else
        SelectedStep(entries, SelectedBy(parameters, env));
        Success((if Selected(parameters, env, e) then [SearchLabel(e)] else []) + rest.value)
  }

  /** `SearchForMaterial`: the labels `file -> name` of the reference
      records that satisfy every predicate, in corpus order; an error when
      evaluating some record's predicates throws. */
  function SearchForMaterial(corpus: Corpus, parameters: seq<SearchParameter>, env: Collaborators): (r: Result<seq<string>, SearchError>)
    ensures r.Failure? <==> exists e :: e in Flatten(corpus) && Throws(parameters, env, e)
    ensures r.Success? ==> r.value == Labels(Seqs.Filter(Flatten(corpus), SelectedBy(parameters, env)))
  {
    SearchEntries(Flatten(corpus), parameters, env)
  }

  /** With no predicates nothing is reported. */
  lemma EmptySearchFindsNothing(corpus: Corpus, env: Collaborators)
    ensures SearchForMaterial(corpus, [], env) == Success([])
  {
  }

  /** A record of the corpus is reported exactly when it satisfies every
      predicate of a nonempty list. */
  lemma SearchReportsExactlyMatches(corpus: Corpus, parameters: seq<SearchParameter>, env: Collaborators, e: Entry)
    requires e in Flatten(corpus)
    requires SearchForMaterial(corpus, parameters, env).Success?
    ensures e in Seqs.Filter(Flatten(corpus), SelectedBy(parameters, env)) <==>
      |parameters| > 0 && forall k :: 0 <= k < |parameters| ==> CompareMaterialMemberValue(parameters[k], e.material, env) == Success(true)
    ensures Selected(parameters, env, e) ==> SearchLabel(e) in SearchForMaterial(corpus, parameters, env).value
  {
    var keep := SelectedBy(parameters, env);
    var selected := Seqs.Filter(Flatten(corpus), keep);
    assert multiset(Flatten(corpus))[e] > 0;
    if keep(e) {
      assert multiset(selected)[e] > 0;
      assert e in selected;
      var i :| 0 <= i < |selected| && selected[i] == e;
      assert Labels(selected)[i] == SearchLabel(e);
    }
  }

  // ---------------------------------------------------------------------
  // Replacement candidates

  /** Why a search command fails: its arguments, or a predicate's value. */
  datatype CommandError = ArgumentsError(cause: TokenizeError) | ValueError(reason: SearchError)

  /** A `?key value [tolerance]` command line run against the corpus: the
      parameters are read with the corrected tokenizer, then searched for. */
  function SearchCommand(args: seq<string>, corpus: Corpus, env: Collaborators): (r: Result<seq<string>, CommandError>)
    ensures TokenizeSearchArgsIntended(args).Failure? ==> r.Failure? && r.error.ArgumentsError?
    ensures TokenizeSearchArgsIntended(args).Success? ==>
      (r.Success? <==> SearchForMaterial(corpus, TokenizeSearchArgsIntended(args).value, env).Success?)
    ensures TokenizeSearchArgsIntended(args).Success? && r.Failure? ==>
      r.error == ValueError(SearchForMaterial(corpus, TokenizeSearchArgsIntended(args).value, env).error)
    ensures r.Success? ==>
      TokenizeSearchArgsIntended(args).Success?
      && SearchForMaterial(corpus, TokenizeSearchArgsIntended(args).value, env) == Success(r.value)
  {
    match TokenizeSearchArgsIntended(args)
    case Failure(e) => Failure(ArgumentsError(e))
    case Success(parameters) =>
      match SearchForMaterial(corpus, parameters, env)
      case Failure(e) => Failure(ValueError(e))
      case Success(labels) => Success(labels)
  }

  /** The command line rendered from a list of predicates searches for
      exactly those predicates, tolerances included. */
  lemma SearchCommandRunsRenderedParameters(parameters: seq<SearchParameter>, corpus: Corpus, env: Collaborators)
    ensures SearchCommand(RenderSearchArgs(parameters), corpus, env).Success?
        <==> SearchForMaterial(corpus, parameters, env).Success?
    ensures SearchForMaterial(corpus, parameters, env).Success? ==>
      SearchCommand(RenderSearchArgs(parameters), corpus, env).value == SearchForMaterial(corpus, parameters, env).value
  {
    IntendedTokenizerRoundTrip(parameters);
  }

  /** A reference entry the finder keeps for `input`. */
  predicate Accepted(e: Entry, input: Material, strict: bool, maximumPoints: int, accuracy: nat) {
    !Disqualified(e.material, input, strict, accuracy) && Penalty(e.material, input, strict) <= maximumPoints
  }

  function Candidate(e: Entry, input: Material, strict: bool): MaterialComparer {
    MaterialComparer(e.material, Penalty(e.material, input, strict), e.fileName)
  }

  /** The kept entries in scan order, as candidates. */
  function Candidates(entries: seq<Entry>, input: Material, strict: bool, maximumPoints: int, accuracy: nat): seq<MaterialComparer>
    decreases |entries|
  {
    if |entries| == 0 then []
    else
      var last := entries[|entries| - 1];
      Candidates(entries[..|entries| - 1], input, strict, maximumPoints, accuracy)
        + (if Accepted(last, input, strict, maximumPoints, accuracy) then [Candidate(last, input, strict)] else [])
  }

  /** Every candidate comes from an accepted entry and every accepted entry
      yields a candidate. */
  lemma {:induction false} CandidatesMembership(entries: seq<Entry>, input: Material, strict: bool, maximumPoints: int, accuracy: nat, c: MaterialComparer)
    ensures c in Candidates(entries, input, strict, maximumPoints, accuracy) <==>
      exists e :: e in entries && Accepted(e, input, strict, maximumPoints, accuracy) && c == Candidate(e, input, strict)
    decreases |entries|
  {
    if |entries| != 0 {
      var init := entries[..|entries| - 1];
      var last := entries[|entries| - 1];
      CandidatesMembership(init, input, strict, maximumPoints, accuracy, c);
      assert entries == init + [last];
      assert forall e :: e in entries <==> e in init || e == last;
    }
  }

  lemma CandidatesStep(entries: seq<Entry>, i: nat, input: Material, strict: bool, maximumPoints: int, accuracy: nat)
    requires i < |entries|
    ensures Candidates(entries[..i + 1], input, strict, maximumPoints, accuracy)
         == Candidates(entries[..i], input, strict, maximumPoints, accuracy)
            + (if Accepted(entries[i], input, strict, maximumPoints, accuracy) then [Candidate(entries[i], input, strict)] else [])
  {
    assert entries[..i + 1][..i] == entries[..i];
  }

  /** No candidate survives exactly when no entry is accepted. */
  lemma CandidatesEmpty(entries: seq<Entry>, input: Material, strict: bool, maximumPoints: int, accuracy: nat)
    ensures |Candidates(entries, input, strict, maximumPoints, accuracy)| == 0
        <==> !exists e :: e in entries && Accepted(e, input, strict, maximumPoints, accuracy)
  {
    var cs := Candidates(entries, input, strict, maximumPoints, accuracy);
    if exists e :: e in entries && Accepted(e, input, strict, maximumPoints, accuracy) {
      var e :| e in entries && Accepted(e, input, strict, maximumPoints, accuracy);
      CandidatesMembership(entries, input, strict, maximumPoints, accuracy, Candidate(e, input, strict));
    }
    if |cs| > 0 {
      CandidatesMembership(entries, input, strict, maximumPoints, accuracy, cs[0]);
    }
  }

  /** Ascending by points. */
  predicate SortedByPoints(s: seq<MaterialComparer>) {
    forall i, j :: 0 <= i < j < |s| ==> s[i].points <= s[j].points
  }

  /** Ascending by points is the order `List.Sort` establishes with
      `CompareTo`: no earlier candidate compares greater than a later one. */
  lemma SortedByPointsMeansCompareTo(s: seq<MaterialComparer>)
    ensures SortedByPoints(s) <==> forall i, j :: 0 <= i < j < |s| ==> CompareTo(s[i], Some(s[j])) <= 0
  {
  }

  function InsertByPoints(x: MaterialComparer, s: seq<MaterialComparer>): (r: seq<MaterialComparer>)
    requires SortedByPoints(s)
    ensures SortedByPoints(r)
    ensures multiset(r) == multiset(s) + multiset{x}
    decreases |s|
  {
    if |s| == 0 then [x]
    else if x.points <= s[0].points then [x] + s
    else
      var rest := InsertByPoints(x, s[1..]);
      assert s == [s[0]] + s[1..];
      InsertBehindHead(s[0], x, s[1..], rest);
      [s[0]] + rest
  }

  /** A head no greater than the inserted candidate and than the tail stays
      in front of the tail with the candidate inserted. */
  lemma InsertBehindHead(head: MaterialComparer, x: MaterialComparer, tail: seq<MaterialComparer>, rest: seq<MaterialComparer>)
    requires SortedByPoints([head] + tail) && head.points < x.points
    requires SortedByPoints(rest) && multiset(rest) == multiset(tail) + multiset{x}
    ensures SortedByPoints([head] + rest)
  {
    forall y | y in rest
      ensures head.points <= y.points
    {
      assert y in multiset(rest);
      if y != x {
        assert y in multiset(tail);
        var k :| 0 <= k < |tail| && tail[k] == y;
        assert ([head] + tail)[0] == head && ([head] + tail)[k + 1] == y;
      }
    }
    var r := [head] + rest;
    forall i, j | 0 <= i < j < |r|
      ensures r[i].points <= r[j].points
    {
      if i == 0 {
        assert r[j] in rest;
      } else {
        assert r[i] == rest[i - 1] && r[j] == rest[j - 1];
      }
    }
  }

  /** `List.Sort` with `CompareTo`: a permutation in ascending points. The
      library sort is not stable, so the order among equal points is not
      promised. */
  function SortByPoints(s: seq<MaterialComparer>): (r: seq<MaterialComparer>)
    ensures SortedByPoints(r)
    ensures multiset(r) == multiset(s)
    decreases |s|
  {
    if |s| == 0 then []
    else
      assert s == [s[0]] + s[1..];
      InsertByPoints(s[0], SortByPoints(s[1..]))
  }

  /** `TryFindReplacementMat`: scores every reference record against
      `input`, keeps those not disqualified and within `maximumPoints`, and
      reports whether any survived, with the survivors sorted by points. */
  method TryFindReplacementMat(input: Material, corpus: Corpus, useStrictCompare: bool, maximumPoints: int, texcoordAccuracy: nat)
    returns (found: bool, outputMaterials: seq<MaterialComparer>)
    ensures found <==> exists e :: e in Flatten(corpus) && Accepted(e, input, useStrictCompare, maximumPoints, texcoordAccuracy)
    ensures !found ==> outputMaterials == []
    ensures found ==> SortedByPoints(outputMaterials)
    ensures multiset(outputMaterials) == multiset(Candidates(Flatten(corpus), input, useStrictCompare, maximumPoints, texcoordAccuracy))
  {
    var entries := Flatten(corpus);
    outputMaterials := [];
    for i := 0 to |entries|
      invariant outputMaterials == Candidates(entries[..i], input, useStrictCompare, maximumPoints, texcoordAccuracy)
    {
      var reference := entries[i];
      var compareResult := CompareMaterial(reference.material, input, useStrictCompare, texcoordAccuracy);
      CandidatesStep(entries, i, input, useStrictCompare, maximumPoints, texcoordAccuracy);
      if compareResult != -1 && compareResult <= maximumPoints {
        outputMaterials := outputMaterials + [MaterialComparer(reference.material, compareResult, reference.fileName)];
      }
    }
    assert entries[..|entries|] == entries;
    CandidatesEmpty(entries, input, useStrictCompare, maximumPoints, texcoordAccuracy);
    if |outputMaterials| == 0 {
      return false, outputMaterials;
    }
    outputMaterials := SortByPoints(outputMaterials);
    found := true;
  }

  /** `c` is the record and file of some entry, not disqualified against
      `input`, with that entry's penalty as its points. */
  predicate ScoredFrom(c: MaterialComparer, entries: seq<Entry>, input: Material, strict: bool, accuracy: nat) {
    exists e :: e in entries && c.material == e.material && c.materialFilename == e.fileName
      && !Disqualified(e.material, input, strict, accuracy) && c.points == Penalty(e.material, input, strict)
  }

  /** What the finder returns: each candidate is a kept reference record,
      with its file and its score, and every kept record is among them. */
  lemma ReplacementCandidates(entries: seq<Entry>, input: Material, strict: bool, maximumPoints: int, accuracy: nat,
                              output: seq<MaterialComparer>)
    requires multiset(output) == multiset(Candidates(entries, input, strict, maximumPoints, accuracy))
    ensures forall c :: c in output ==> c.points != -1 && c.points <= maximumPoints && ScoredFrom(c, entries, input, strict, accuracy)
    ensures forall e :: e in entries && Accepted(e, input, strict, maximumPoints, accuracy) ==> Candidate(e, input, strict) in output
  {
    forall c | c in output
      ensures c.points != -1 && c.points <= maximumPoints
      ensures ScoredFrom(c, entries, input, strict, accuracy)
    {
      assert multiset(output)[c] > 0;
      CandidatesMembership(entries, input, strict, maximumPoints, accuracy, c);
    }
    forall e | e in entries && Accepted(e, input, strict, maximumPoints, accuracy)
      ensures Candidate(e, input, strict) in output
    {
      CandidatesMembership(entries, input, strict, maximumPoints, accuracy, Candidate(e, input, strict));
      assert multiset(output)[Candidate(e, input, strict)] > 0;
    }
  }
}
