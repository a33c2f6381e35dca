/** The packed texcoord-slot word: nine 3-bit channels, one per texture map
    (diffuse, normal, specular, reflection, highlight, glow, night, detail,
    shadow), where the value 7 marks a channel the material does not use. */
module Texcoords {
  import Seqs

  /** Channel value meaning "this texture map has no texcoord slot". */
  const Unused: nat := 7

  type Channel = c: nat | c <= 7

  /** A decoded texcoord word (the `Texcoord` class). */
  datatype Texcoord = Texcoord(
    raw: bv32,
    diffuse: Channel,
    normal: Channel,
    specular: Channel,
    reflection: Channel,
    highlight: Channel,
    glow: Channel,
    night: Channel,
    detail: Channel,
    shadow: Channel)

  /** The channels in the order the matcher visits them. */
  function Channels(t: Texcoord): (cs: seq<Channel>)
    ensures |cs| == 9
  {
    [t.diffuse, t.normal, t.specular, t.reflection, t.highlight, t.glow, t.night, t.detail, t.shadow]
  }

  /** Constructor: channel k is bits 3k .. 3k+2 of the word. */
  function Decode(value: bv32): Texcoord {
    Texcoord(
      value,
      (value & 7) as nat,
      ((value >> 3) & 7) as nat,
      ((value >> 6) & 7) as nat,
      ((value >> 9) & 7) as nat,
      ((value >> 12) & 7) as nat,
      ((value >> 15) & 7) as nat,
      ((value >> 18) & 7) as nat,
      ((value >> 21) & 7) as nat,
      ((value >> 24) & 7) as nat)
  }

  /** Packs nine channels back into a word, leaving bits 27 .. 31 clear. */
  function Encode(t: Texcoord): bv32 {
    (t.diffuse as bv32)
    | ((t.normal as bv32) << 3)
    | ((t.specular as bv32) << 6)
    | ((t.reflection as bv32) << 9)
    | ((t.highlight as bv32) << 12)
    | ((t.glow as bv32) << 15)
    | ((t.night as bv32) << 18)
    | ((t.detail as bv32) << 21)
    | ((t.shadow as bv32) << 24)
  }

  // ---------------------------------------------------------------------
  // The matcher and its declarative reading

  /** Reference channel `k` is in use and the input disagrees with it. */
  predicate Conflict(reference: seq<Channel>, input: seq<Channel>, k: nat)
    requires k < |reference| && k < |input|
  {
    reference[k] != Unused && reference[k] != input[k]
  }

  /** Some channel conflicts: the input can never be accepted. */
  predicate Blocked(reference: Texcoord, input: Texcoord) {
    exists k :: 0 <= k < 9 && Conflict(Channels(reference), Channels(input), k)
  }

  /** Channels the reference leaves unused but the input uses. */
  function FreeMismatches(reference: seq<Channel>, input: seq<Channel>, from: nat): set<nat> {
    set k: nat | from <= k < |reference| && k < |input| && reference[k] == Unused && input[k] != Unused
  }

  /** The number of channels unused in the reference but used in the input. */
  function Distance(reference: Texcoord, input: Texcoord): nat {
    |FreeMismatches(Channels(reference), Channels(input), 0)|
  }

  /** Per-channel verdict: 0 for agreement, 1 for a free mismatch, -1 for a
      conflict. */
  function TexCompare(referenceCoord: Channel, inputCoord: Channel): int {
    if referenceCoord == inputCoord then 0
    else if referenceCoord == Unused then 1
    else -1
  }

  /** Visits channels `k ..` in order, adding each verdict to `count` and
      stopping at the first conflict. */
  function ScanChannels(reference: seq<Channel>, input: seq<Channel>, k: nat, count: nat): (d: int)
    requires |reference| == |input| && k <= |reference|
    ensures d == -1 <==> exists j :: k <= j < |reference| && Conflict(reference, input, j)
    ensures d != -1 ==> d == count + |FreeMismatches(reference, input, k)|
    decreases |reference| - k
  {
    if k == |reference| then
      assert FreeMismatches(reference, input, k) == {};
      count
    else
      var c := TexCompare(reference[k], input[k]);
      if c == -1 then
        assert Conflict(reference, input, k);
        -1
      else
        var rest := ScanChannels(reference, input, k + 1, count + c);
        assert FreeMismatches(reference, input, k) ==
          FreeMismatches(reference, input, k + 1) + (if c == 1 then {k} else {});
        rest
  }

  /** `TestTexcoord`: -1 when some channel conflicts or when the number of
      free mismatches exceeds `accuracy`, otherwise that number. */
  function TestTexcoord(reference: Texcoord, input: Texcoord, accuracy: nat): (d: int)
    ensures d == -1 <==> Blocked(reference, input) || Distance(reference, input) > accuracy
    ensures d != -1 ==> d == Distance(reference, input)
    ensures -1 <= d <= accuracy && d <= 9
  {
    var count := ScanChannels(Channels(reference), Channels(input), 0, 0);
    DistanceAtMostNine(reference, input);
    if count <= accuracy as int then count else -1
  }

  lemma DistanceAtMostNine(reference: Texcoord, input: Texcoord)
    ensures Distance(reference, input) <= 9
  {
    Seqs.BoundedSetSize(FreeMismatches(Channels(reference), Channels(input), 0), 9);
  }

  /** Channels the texcoord word uses. */
  function EnabledChannels(t: Texcoord): set<nat> {
    set k: nat | k < 9 && Channels(t)[k] != Unused
  }

  /** `GetEnabledTexcoordCount`: how many of the nine channels are in use. */
  function GetEnabledTexcoordCount(t: Texcoord): (n: nat)
    ensures n == |EnabledChannels(t)|
    ensures n <= 9
  {
    assert EnabledFrom(Channels(t), 0) == EnabledChannels(t);
    Seqs.BoundedSetSize(EnabledChannels(t), 9);
    CountEnabled(Channels(t), 0)
  }

  function EnabledFrom(cs: seq<Channel>, from: nat): set<nat> {
    set k: nat | from <= k < |cs| && cs[k] != Unused
  }

  function CountEnabled(cs: seq<Channel>, from: nat): (n: nat)
    requires from <= |cs|
    ensures n == |EnabledFrom(cs, from)|
    decreases |cs| - from
  {
    if from == |cs| then
      assert EnabledFrom(cs, from) == {};
      0
    else
      assert EnabledFrom(cs, from) == EnabledFrom(cs, from + 1) + (if cs[from] != Unused then {from} else {});
      (if cs[from] != Unused then 1 else 0) + CountEnabled(cs, from + 1)
  }

  // ---------------------------------------------------------------------
  // Properties

  /** A word is at distance 0 from itself, whatever the accuracy. */
  lemma SelfDistanceZero(t: Texcoord, accuracy: nat)
    ensures TestTexcoord(t, t, accuracy) == 0
  {
    assert FreeMismatches(Channels(t), Channels(t), 0) == {};
  }

  /** Free mismatches only occur on channels the reference leaves unused, so
      the distance never exceeds the number of channels the reference does
      not use. */
  lemma {:induction false} DistanceAtMostUnusedChannels(reference: Texcoord, input: Texcoord)
    ensures Distance(reference, input) + GetEnabledTexcoordCount(reference) <= 9
  {
    var free := FreeMismatches(Channels(reference), Channels(input), 0);
    var enabled := EnabledChannels(reference);
    assert free !! enabled;
    Seqs.BoundedSetSize(free + enabled, 9);
  }

  /** A reference that uses no channel accepts every input; the distance is
      then the number of channels the input uses. */
  lemma AllUnusedReference(reference: Texcoord, input: Texcoord)
    requires forall k :: 0 <= k < 9 ==> Channels(reference)[k] == Unused
    ensures !Blocked(reference, input)
    ensures Distance(reference, input) == GetEnabledTexcoordCount(input)
  {
    assert FreeMismatches(Channels(reference), Channels(input), 0) == EnabledChannels(input);
  }

  // ---------------------------------------------------------------------
  // Decoding is lossless on bits 0 .. 26 and ignores bits 27 .. 31

  lemma PackedFields(d0: bv32, d1: bv32, d2: bv32, d3: bv32, d4: bv32, d5: bv32, d6: bv32, d7: bv32, d8: bv32)
    requires d0 < 8 && d1 < 8 && d2 < 8 && d3 < 8 && d4 < 8 && d5 < 8 && d6 < 8 && d7 < 8 && d8 < 8
    ensures var v := d0 | (d1 << 3) | (d2 << 6) | (d3 << 9) | (d4 << 12) | (d5 << 15) | (d6 << 18) | (d7 << 21) | (d8 << 24);
      && v & 7 == d0 && (v >> 3) & 7 == d1 && (v >> 6) & 7 == d2 && (v >> 9) & 7 == d3
      && (v >> 12) & 7 == d4 && (v >> 15) & 7 == d5 && (v >> 18) & 7 == d6 && (v >> 21) & 7 == d7
      && (v >> 24) & 7 == d8
  {
  }

  lemma Repacked(v: bv32)
    ensures (v & 7) | (((v >> 3) & 7) << 3) | (((v >> 6) & 7) << 6) | (((v >> 9) & 7) << 9)
      | (((v >> 12) & 7) << 12) | (((v >> 15) & 7) << 15) | (((v >> 18) & 7) << 18)
      | (((v >> 21) & 7) << 21) | (((v >> 24) & 7) << 24) == v & 0x07FF_FFFF
  {
  }

  lemma SmallToBits(c: Channel)
    ensures (c as bv32) < 8
  {
  }

  lemma SmallFromBits(b: bv32)
    requires b < 8
    ensures (b as nat) <= 7 && ((b as nat) as bv32) == b
  {
  }

  lemma ThreeBits(v: bv32)
    ensures v & 7 < 8
  {
  }

  /** Each 3-bit field of a packed word holds the channel packed there. */
  lemma EncodeFields(t: Texcoord)
    ensures var v := Encode(t);
      && v & 7 == t.diffuse as bv32
      && (v >> 3) & 7 == t.normal as bv32
      && (v >> 6) & 7 == t.specular as bv32
      && (v >> 9) & 7 == t.reflection as bv32
      && (v >> 12) & 7 == t.highlight as bv32
      && (v >> 15) & 7 == t.glow as bv32
      && (v >> 18) & 7 == t.night as bv32
      && (v >> 21) & 7 == t.detail as bv32
      && (v >> 24) & 7 == t.shadow as bv32
  {
    SmallToBits(t.diffuse); SmallToBits(t.normal); SmallToBits(t.specular);
    SmallToBits(t.reflection); SmallToBits(t.highlight); SmallToBits(t.glow);
    SmallToBits(t.night); SmallToBits(t.detail); SmallToBits(t.shadow);
    PackedFields(t.diffuse as bv32, t.normal as bv32, t.specular as bv32, t.reflection as bv32,
      t.highlight as bv32, t.glow as bv32, t.night as bv32, t.detail as bv32, t.shadow as bv32);
  }

  lemma FieldValue(x: bv32, c: Channel)
    requires x == c as bv32
    ensures x as nat == c
  {
  }

  /** Decoding a packed word gives back the channels that were packed. */
  lemma DecodeEncode(t: Texcoord)
    ensures Channels(Decode(Encode(t))) == Channels(t)
  {
    EncodeFields(t);
    DecodeFields(Encode(t), t);
  }

  lemma DecodeFields(v: bv32, t: Texcoord)
    requires && v & 7 == t.diffuse as bv32
             && (v >> 3) & 7 == t.normal as bv32
             && (v >> 6) & 7 == t.specular as bv32
             && (v >> 9) & 7 == t.reflection as bv32
             && (v >> 12) & 7 == t.highlight as bv32
             && (v >> 15) & 7 == t.glow as bv32
             && (v >> 18) & 7 == t.night as bv32
             && (v >> 21) & 7 == t.detail as bv32
             && (v >> 24) & 7 == t.shadow as bv32
    ensures Channels(Decode(v)) == Channels(t)
  {
    DecodeLowFields(v, t);
    DecodeHighFields(v, t);
  }

  lemma DecodeLowFields(v: bv32, t: Texcoord)
    requires && v & 7 == t.diffuse as bv32
             && (v >> 3) & 7 == t.normal as bv32
             && (v >> 6) & 7 == t.specular as bv32
             && (v >> 9) & 7 == t.reflection as bv32
             && (v >> 12) & 7 == t.highlight as bv32
    ensures var d := Decode(v);
      d.diffuse == t.diffuse && d.normal == t.normal && d.specular == t.specular
      && d.reflection == t.reflection && d.highlight == t.highlight
  {
    assert Decode(v).diffuse == t.diffuse by { FieldValue(v & 7, t.diffuse); }
    assert Decode(v).normal == t.normal by { FieldValue((v >> 3) & 7, t.normal); }
    assert Decode(v).specular == t.specular by { FieldValue((v >> 6) & 7, t.specular); }
    assert Decode(v).reflection == t.reflection by { FieldValue((v >> 9) & 7, t.reflection); }
    assert Decode(v).highlight == t.highlight by { FieldValue((v >> 12) & 7, t.highlight); }
  }

  lemma DecodeHighFields(v: bv32, t: Texcoord)
    requires && (v >> 15) & 7 == t.glow as bv32
             && (v >> 18) & 7 == t.night as bv32
             && (v >> 21) & 7 == t.detail as bv32
             && (v >> 24) & 7 == t.shadow as bv32
    ensures var d := Decode(v);
      d.glow == t.glow && d.night == t.night && d.detail == t.detail && d.shadow == t.shadow
  {
    assert Decode(v).glow == t.glow by { FieldValue((v >> 15) & 7, t.glow); }
    assert Decode(v).night == t.night by { FieldValue((v >> 18) & 7, t.night); }
    assert Decode(v).detail == t.detail by { FieldValue((v >> 21) & 7, t.detail); }
    assert Decode(v).shadow == t.shadow by { FieldValue((v >> 24) & 7, t.shadow); }
  }

  /** Re-packing the decoded channels restores bits 0 .. 26 of the word. */
  lemma EncodeDecode(v: bv32)
    ensures Encode(Decode(v)) == v & 0x07FF_FFFF
  {
    ThreeBits(v); ThreeBits(v >> 3); ThreeBits(v >> 6); ThreeBits(v >> 9); ThreeBits(v >> 12);
    ThreeBits(v >> 15); ThreeBits(v >> 18); ThreeBits(v >> 21); ThreeBits(v >> 24);
    SmallFromBits(v & 7); SmallFromBits((v >> 3) & 7); SmallFromBits((v >> 6) & 7);
    SmallFromBits((v >> 9) & 7); SmallFromBits((v >> 12) & 7); SmallFromBits((v >> 15) & 7);
    SmallFromBits((v >> 18) & 7); SmallFromBits((v >> 21) & 7); SmallFromBits((v >> 24) & 7);
    Repacked(v);
  }

  /** Bits 27 .. 31 of the word are never read. */
  lemma HighBitsIgnored(v: bv32)
    ensures Channels(Decode(v)) == Channels(Decode(v & 0x07FF_FFFF))
  {
    EncodeDecode(v);
    DecodeEncode(Decode(v));
  }
}
