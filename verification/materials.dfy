/** The material record the engine compares, and the reference corpus it
    compares against. Field names follow the record's binary layout
    (`Field49` is the byte at offset 0x49, and so on). */
module Materials {

  /** A 32-bit float. Only equality is used, and the model does not look
      inside: floating-point comparison rules are not part of it. */
  type Float(==, !new)

  /** An RGBA colour vector. */
  datatype Color = Color(x: Float, y: Float, z: Float, w: Float)

  type Byte = b: nat | b <= 0xFF
  type UShort = u: nat | u <= 0xFFFF
  type UInt = u: nat | u <= 0xFFFF_FFFF

  /** The nine attribute kinds `Type0` .. `Type8`. */
  type AttributeKind = k: nat | k <= 8

  const Type1: AttributeKind := 1

  /** A typed attribute block. The sub-fields are those of a `Type1` block;
      for the other kinds they are carried but never read. */
  datatype Attribute = Attribute(
    kind: AttributeKind,
    rawFlags: UInt,
    type1Flags: UShort,
    field1C: Float,
    field20: Float)

  datatype Material = Material(
    name: string,
    version: UInt,
    flags: bv32,
    ambientColor: Color,
    diffuseColor: Color,
    specularColor: Color,
    emissiveColor: Color,
    field40: Float,             // reflectivity
    field44: Float,             // outline index
    drawMethod: Byte,
    field49: Byte,
    field4A: Byte,
    field4B: Byte,
    field4C: Byte,
    field4D: Byte,              // highlight map blend mode
    field5C: UInt,
    field6C: bv32,              // texcoord slots 1
    field70: bv32,              // texcoord slots 2
    field90: UShort,
    field92: UShort,
    field94: UShort,
    field96: UShort,
    field98: UInt,
    disableBackfaceCulling: UInt,
    attributes: seq<Attribute>)

  /** The materials read from one reference file, labelled with the file's
      path relative to the reference directory. */
  datatype ReferenceFile = ReferenceFile(fileName: string, materials: seq<Material>)

  type Corpus = seq<ReferenceFile>

  /** One reference material together with the label of its file. */
  datatype Entry = Entry(fileName: string, material: Material)

  // ---------------------------------------------------------------------
  // Flag bits

  /** Bit `i` of a flag word (`MaterialFlags.HasFlag` for a one-bit flag);
      false for positions past the word. */
  predicate Bit(flags: bv32, i: nat) {
    i < 32 && (flags >> i) & 1 == 1
  }

  /** The bit index converted to a shift amount keeps its value; stating it
      for a literal index spares the solver the conversion. */
  lemma ShiftAmount(k: nat)
    requires k < 32
    ensures (k as bv6) as int == k
  {
  }

  /** Words that agree on bits 0..7 agree on byte 0. */
  lemma ByteAgrees0(a: bv32, b: bv32)
    requires Bit(a, 0) == Bit(b, 0) && Bit(a, 1) == Bit(b, 1) && Bit(a, 2) == Bit(b, 2) && Bit(a, 3) == Bit(b, 3)
    requires Bit(a, 4) == Bit(b, 4) && Bit(a, 5) == Bit(b, 5) && Bit(a, 6) == Bit(b, 6) && Bit(a, 7) == Bit(b, 7)
    ensures a & 0xFF == b & 0xFF
  {
    ShiftAmount(0);
    ShiftAmount(1);
    ShiftAmount(2);
    ShiftAmount(3);
    ShiftAmount(4);
    ShiftAmount(5);
    ShiftAmount(6);
    ShiftAmount(7);
  }

  /** Words that agree on bits 8..15 agree on byte 1. */
  lemma ByteAgrees1(a: bv32, b: bv32)
    requires Bit(a, 8) == Bit(b, 8) && Bit(a, 9) == Bit(b, 9) && Bit(a, 10) == Bit(b, 10) && Bit(a, 11) == Bit(b, 11)
    requires Bit(a, 12) == Bit(b, 12) && Bit(a, 13) == Bit(b, 13) && Bit(a, 14) == Bit(b, 14) && Bit(a, 15) == Bit(b, 15)
    ensures a & 0xFF00 == b & 0xFF00
  {
    ShiftAmount(8);
    ShiftAmount(9);
    ShiftAmount(10);
    ShiftAmount(11);
    ShiftAmount(12);
    ShiftAmount(13);
    ShiftAmount(14);
    ShiftAmount(15);
  }

  /** Words that agree on bits 16..23 agree on byte 2. */
  lemma ByteAgrees2(a: bv32, b: bv32)
    requires Bit(a, 16) == Bit(b, 16) && Bit(a, 17) == Bit(b, 17) && Bit(a, 18) == Bit(b, 18) && Bit(a, 19) == Bit(b, 19)
    requires Bit(a, 20) == Bit(b, 20) && Bit(a, 21) == Bit(b, 21) && Bit(a, 22) == Bit(b, 22) && Bit(a, 23) == Bit(b, 23)
    ensures a & 0xFF0000 == b & 0xFF0000
  {
    ShiftAmount(16);
    ShiftAmount(17);
    ShiftAmount(18);
    ShiftAmount(19);
    ShiftAmount(20);
    ShiftAmount(21);
    ShiftAmount(22);
    ShiftAmount(23);
  }

  /** Words that agree on bits 24..31 agree on byte 3. */
  lemma ByteAgrees3(a: bv32, b: bv32)
    requires Bit(a, 24) == Bit(b, 24) && Bit(a, 25) == Bit(b, 25) && Bit(a, 26) == Bit(b, 26) && Bit(a, 27) == Bit(b, 27)
    requires Bit(a, 28) == Bit(b, 28) && Bit(a, 29) == Bit(b, 29) && Bit(a, 30) == Bit(b, 30) && Bit(a, 31) == Bit(b, 31)
    ensures a & 0xFF000000 == b & 0xFF000000
  {
    ShiftAmount(24);
    ShiftAmount(25);
    ShiftAmount(26);
    ShiftAmount(27);
    ShiftAmount(28);
    ShiftAmount(29);
    ShiftAmount(30);
    ShiftAmount(31);
  }

  lemma BytesDetermineWord(a: bv32, b: bv32)
    requires a & 0xFF == b & 0xFF && a & 0xFF00 == b & 0xFF00
    requires a & 0xFF0000 == b & 0xFF0000 && a & 0xFF000000 == b & 0xFF000000
    ensures a == b
  {
  }

  /** Two flag words agree on every one of their 32 bits exactly when they
      are the same word. */
  lemma BitsDetermineWord(a: bv32, b: bv32)
    ensures (forall k :: 0 <= k < 32 ==> Bit(a, k) == Bit(b, k)) <==> a == b
  {
    if forall k :: 0 <= k < 32 ==> Bit(a, k) == Bit(b, k) {
      ByteAgrees0(a, b);
      ByteAgrees1(a, b);
      ByteAgrees2(a, b);
      ByteAgrees3(a, b);
      BytesDetermineWord(a, b);
    }
  }

  const HasAttributesBit: nat := 16

  predicate HasAttributes(m: Material) {
    Bit(m.flags, HasAttributesBit)
  }

  // ---------------------------------------------------------------------
  // The corpus in scan order

  /** The materials of one file, each labelled with the file's name. */
  function FileEntries(file: ReferenceFile): (es: seq<Entry>)
    ensures |es| == |file.materials|
    ensures forall j :: 0 <= j < |es| ==> es[j] == Entry(file.fileName, file.materials[j])
  {
    seq(|file.materials|, j requires 0 <= j < |file.materials| => Entry(file.fileName, file.materials[j]))
  }

  /** The reference materials in the order the nested file/material loops
      visit them, each labelled with its file. */
  function Flatten(corpus: Corpus): (entries: seq<Entry>)
    ensures forall f, j :: 0 <= f < |corpus| && 0 <= j < |corpus[f].materials| ==>
      Entry(corpus[f].fileName, corpus[f].materials[j]) in entries
    ensures forall e :: e in entries ==>
      exists f :: 0 <= f < |corpus| && e.fileName == corpus[f].fileName && e.material in corpus[f].materials
    ensures |entries| == MaterialCount(corpus)
    decreases |corpus|
  {
    if |corpus| == 0 then []
    else
      var first := FileEntries(corpus[0]);
      var rest := Flatten(corpus[1..]);
      assert forall f, j :: 0 <= f < |corpus| && 0 <= j < |corpus[f].materials| ==>
        Entry(corpus[f].fileName, corpus[f].materials[j]) in first + rest
      by {
        forall f, j | 0 <= f < |corpus| && 0 <= j < |corpus[f].materials|
          ensures Entry(corpus[f].fileName, corpus[f].materials[j]) in first + rest
        {
          if f == 0 {
            assert first[j] == Entry(corpus[f].fileName, corpus[f].materials[j]);
          } else {
            assert corpus[1..][f - 1] == corpus[f];
          }
        }
      }
      assert forall e :: e in first + rest ==>
        exists f :: 0 <= f < |corpus| && e.fileName == corpus[f].fileName && e.material in corpus[f].materials
      by {
        forall e | e in first + rest
          ensures exists f :: 0 <= f < |corpus| && e.fileName == corpus[f].fileName && e.material in corpus[f].materials
        {
          if e in first {
            var j :| 0 <= j < |first| && first[j] == e;
            assert e.material == corpus[0].materials[j];
          } else {
            var f :| 0 <= f < |corpus[1..]| && e.fileName == corpus[1..][f].fileName && e.material in corpus[1..][f].materials;
            assert corpus[1..][f] == corpus[f + 1];
          }
        }
      }
      first + rest
  }

  /** Number of materials over all files of the corpus. */
  function MaterialCount(corpus: Corpus): nat
    decreases |corpus|
  {
    if |corpus| == 0 then 0 else |corpus[0].materials| + MaterialCount(corpus[1..])
  }

  /** The materials of the corpus in scan order (`SelectMany` over the files). */
  function AllMaterials(corpus: Corpus): (ms: seq<Material>)
    ensures |ms| == MaterialCount(corpus)
    ensures forall f, j :: 0 <= f < |corpus| && 0 <= j < |corpus[f].materials| ==> corpus[f].materials[j] in ms
    ensures forall m :: m in ms ==> exists f :: 0 <= f < |corpus| && m in corpus[f].materials
    decreases |corpus|
  {
    if |corpus| == 0 then []
    else
      var rest := AllMaterials(corpus[1..]);
      assert forall f, j :: 1 <= f < |corpus| && 0 <= j < |corpus[f].materials| ==> corpus[f].materials[j] in rest
      by {
        forall f, j | 1 <= f < |corpus| && 0 <= j < |corpus[f].materials|
          ensures corpus[f].materials[j] in rest
        {
          assert corpus[1..][f - 1] == corpus[f];
        }
      }
      assert forall m :: m in rest ==> exists f :: 1 <= f < |corpus| && m in corpus[f].materials
      by {
        forall m | m in rest
          ensures exists f :: 1 <= f < |corpus| && m in corpus[f].materials
        {
          var f :| 0 <= f < |corpus[1..]| && m in corpus[1..][f].materials;
          assert corpus[1..][f] == corpus[f + 1];
        }
      }
      corpus[0].materials + rest
  }
}
