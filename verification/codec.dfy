/** The quality-preset codec of the capture-blur inspector: four small
    integer settings packed into one `int` at fixed bit offsets, and the
    named presets that such packed values are compared against.

      field                      offset  width
      result desampling rate        0      4
      reduction (working) rate      4      4
      filter mode                   8      2
      blur iterations              10      4
 */
module QualityCodec {
  import opened Int32

  datatype Option<+T> = None | Some(value: T)

  // Bit layout of a packed value.
  const DesamplingShift: nat := 0
  const ReductionShift: nat := 4
  const FilterShift: nat := 8
  const IterationsShift: nat := 10
  const Bits4Width: nat := 4
  const Bits2Width: nat := 2

  /** The masks `(1 << 4) - 1` and `(1 << 2) - 1`. */
  const Bits4: int := Pow2(Bits4Width) - 1
  const Bits2: int := Pow2(Bits2Width) - 1

  // The enumeration values the presets are built from.  They belong to the
  // component's desampling-rate enumeration and the engine's filter-mode
  // enumeration, neither of which is part of this model; the lemmas
  // `PresetValuesArePackings` and `PresetFacts` state everything the codec
  // needs of them.
  const DesamplingNone: int32 := 0
  const DesamplingX1: int32 := 1
  const DesamplingX2: int32 := 2
  const FilterBilinear: int32 := 1

  /** The four serialized settings the inspector edits, each a C# `int`. */
  datatype Fields = Fields(
    desampling: int32,
    reduction: int32,
    filter: int32,
    iterations: int32)

  /** Every field fits its bit slice. */
  predicate InRange(f: Fields) {
    && 0 <= f.desampling as int <= Bits4
    && 0 <= f.reduction as int <= Bits4
    && 0 <= f.filter as int <= Bits2
    && 0 <= f.iterations as int <= Bits4
  }

  /** The value the packing denotes with unbounded integers. */
  function Weighted(f: Fields): int {
    f.desampling as int * Pow2(DesamplingShift)
    + f.reduction as int * Pow2(ReductionShift)
    + f.filter as int * Pow2(FilterShift)
    + f.iterations as int * Pow2(IterationsShift)
  }

  /** The packing the quality getter computes, with C#'s unchecked `<<` and
      `+`: whatever the settings, it is the exact packing wrapped to 32 bits. */
  function Pack(f: Fields): (r: int32)
    ensures r == Wrap(Weighted(f))
  {
    var a := ShiftLeft(f.desampling, DesamplingShift);
    var b := ShiftLeft(f.reduction, ReductionShift);
    var c := ShiftLeft(f.filter, FilterShift);
    var d := ShiftLeft(f.iterations, IterationsShift);
    UncheckedPackSteps(f, a, b, c, d);
    Add(Add(Add(a, b), c), d)
  }

  /** `(v >> shift) & mask`, the mask being `width` low one-bits. */
  function Slice(v: int32, shift: nat, width: nat): (r: int32)
    requires shift < 32 && width <= 16
    ensures 0 <= r as int < Pow2(width)
  {
    LowBits(ShiftRight(v, shift), width)
  }

  /** The quality setter's decoding of a packed value into the four fields. */
  function Unpack(v: int32): (f: Fields)
    ensures InRange(f)
  {
    Fields(
      Slice(v, DesamplingShift, Bits4Width),
      Slice(v, ReductionShift, Bits4Width),
      Slice(v, FilterShift, Bits2Width),
      Slice(v, IterationsShift, Bits4Width))
  }

  /** The quality-mode enumeration. */
  datatype Quality = Fast | Medium | Detail | Custom

  /** The settings each named preset stands for. */
  function PresetFields(q: Quality): (f: Fields)
    requires q != Custom
    ensures InRange(f)
  {
    PowTable();
    match q
    case Fast => Fields(DesamplingX2, DesamplingX2, FilterBilinear, 2)
    case Medium => Fields(DesamplingX1, DesamplingX1, FilterBilinear, 3)
    case Detail => Fields(DesamplingNone, DesamplingX1, FilterBilinear, 5)
  }

  /** The integer value of each enumeration member.  The presets are
      declared as the packing of their settings; `PresetValuesArePackings`
      proves that these are those packings. */
  function Value(q: Quality): (v: int32)
    ensures q != Custom ==> 0 <= v as int < 0x4000
  {
    match q
    case Fast => 2338
    case Medium => 3345
    case Detail => 5392
    case Custom => -1
  }

  /** `Enum.IsDefined` followed by the cast: the member whose value is `v`, if any. */
  function FromValue(v: int32): (r: Option<Quality>)
    ensures r.Some? ==> Value(r.value) == v
    ensures forall q :: Value(q) == v ==> r == Some(q)
  {
    if v == Value(Fast) then Some(Fast)
    else if v == Value(Medium) then Some(Medium)
    else if v == Value(Detail) then Some(Detail)
    else if v == Value(Custom) then Some(Custom)
    else None
  }

  //----------------------------------------------------------------------
  // Properties of the packing.
  //----------------------------------------------------------------------

  /** Each unchecked shift and addition of the packing differs from the
      exact result by a multiple of 2^32, so the total wraps the exact sum. */
  lemma {:induction false} UncheckedPackSteps(f: Fields, a: int32, b: int32, c: int32, d: int32)
    requires a == ShiftLeft(f.desampling, DesamplingShift)
    requires b == ShiftLeft(f.reduction, ReductionShift)
    requires c == ShiftLeft(f.filter, FilterShift)
    requires d == ShiftLeft(f.iterations, IterationsShift)
    ensures Add(Add(Add(a, b), c), d) == Wrap(Weighted(f))
  {
    PowTable();
    var x0, x1 := f.desampling as int, f.reduction as int * 0x10;
    var x2, x3 := f.filter as int * 0x100, f.iterations as int * 0x400;
    var ab := Add(a, b);
    CongruentSum(a as int, b as int, x0, x1);
    CongruentTrans(ab as int, a as int + b as int, x0 + x1);
    var abc := Add(ab, c);
    CongruentSum(ab as int, c as int, x0 + x1, x2);
    CongruentTrans(abc as int, ab as int + c as int, x0 + x1 + x2);
    var p := Add(abc, d);
    CongruentSum(abc as int, d as int, x0 + x1 + x2, x3);
    CongruentTrans(p as int, abc as int + d as int, Weighted(f));
    WrapCongruent(p as int, Weighted(f));
  }

  /** For fields that fit their slices the packing is exact and below 2^14. */
  lemma PackInRange(f: Fields)
    requires InRange(f)
    ensures Pack(f) as int == Weighted(f)
    ensures 0 <= Pack(f) as int < Pow2(14)
  {
    PowTable();
  }

  /** A slice of `lo + 2^shift * (x + 2^width * hi)` is `x` when `lo` and `x`
      fit below their offsets. */
  lemma SliceOfComposed(v: int32, lo: int, x: int, hi: int, shift: nat, width: nat)
    requires shift < 32 && width <= 16
    requires 0 <= lo < Pow2(shift) && 0 <= x < Pow2(width)
    requires v as int == lo + Pow2(shift) * (x + Pow2(width) * hi)
    ensures Slice(v, shift, width) as int == x
  {
    var s, w := Pow2(shift), Pow2(width);
    var mid := x + w * hi;
    DivMod(lo, mid, s);
    assert ShiftRight(v, shift) == mid;
    DivMod(x, hi, w);
    assert mid % w == x;
  }

  /** Unpacking with the masks recovers every field that fits its slice. */
  lemma UnpackPack(f: Fields)
    requires InRange(f)
    ensures Unpack(Pack(f)) == f
  {
    PowTable();
    PackInRange(f);
    var v := Pack(f);
    var d, r, fm, it := f.desampling as int, f.reduction as int, f.filter as int, f.iterations as int;
    SliceOfComposed(v, 0, d, r + 0x10 * fm + 0x40 * it, 0, 4);
    SliceOfComposed(v, d, r, fm + 4 * it, 4, 4);
    SliceOfComposed(v, d + 0x10 * r, fm, it, 8, 2);
    SliceOfComposed(v, d + 0x10 * r + 0x100 * fm, it, 0, 10, 4);
  }

  /** Euclidean division undoes `lo + m * hi` for a low part below `m`. */
  lemma DivMod(lo: int, hi: int, m: int)
    requires 0 <= lo < m
    ensures (lo + m * hi) / m == hi
    ensures (lo + m * hi) % m == lo
  {
    var q, r := (lo + m * hi) / m, (lo + m * hi) % m;
    assert m * (q - hi) == lo - r;
    MulAtLeast(q - hi, m);
    MulAtLeast(hi - q, m);
  }

  lemma MulAtLeast(a: int, m: int)
    requires m >= 1
    ensures a >= 1 ==> m * a >= m
  {
  }

  /** Every packed value of 14 bits is the packing of its own unpacking. */
  lemma PackUnpack(v: int32)
    requires 0 <= v as int < Pow2(14)
    ensures Pack(Unpack(v)) == v
  {
    PowTable();
    var x := v as int;
    var a, q1 := x % 0x10, x / 0x10;
    var b, q2 := q1 % 0x10, q1 / 0x10;
    var c, q3 := q2 % 4, q2 / 4;
    assert x == a + 0x10 * (b + 0x10 * (c + 4 * q3));
    assert 0 <= q3 < 0x10;
    var f := Fields(a as int32, b as int32, c as int32, q3 as int32);
    UnpackPack(f);
    PackInRange(f);
    assert Pack(f) == v;
  }

  /** Packing is injective on fields that fit their slices. */
  lemma PackInjective(f: Fields, g: Fields)
    requires InRange(f) && InRange(g)
    ensures Pack(f) == Pack(g) <==> f == g
  {
    if Pack(f) == Pack(g) {
      UnpackPack(f);
      UnpackPack(g);
    }
  }

  /** Each preset's value is the packing of its settings, computed without
      wrap-around: the declarations of the presets. */
  lemma PresetValuesArePackings(q: Quality)
    requires q != Custom
    ensures Value(q) == Pack(PresetFields(q))
    ensures Value(q) as int == Weighted(PresetFields(q))
  {
    PowTable();
  }

  /** What the codec needs of the preset constants: their settings fit the
      slices, their values are distinct, non-negative and differ from
      `Custom`'s -1. */
  lemma PresetFacts()
    ensures forall q :: q != Custom ==> InRange(PresetFields(q))
    ensures forall q :: q != Custom ==> 0 <= Value(q) as int < Pow2(14)
    ensures forall p, q :: Value(p) == Value(q) ==> p == q
  {
    PowTable();
  }

  /** Packed in-range fields never equal `Custom`'s value. */
  lemma InRangeNeverCustom(f: Fields)
    requires InRange(f)
    ensures Pack(f) != Value(Custom)
    ensures FromValue(Pack(f)) != Some(Custom)
  {
    PackInRange(f);
  }

  /** Decoding a preset's value yields the preset's own settings. */
  lemma UnpackPreset(q: Quality)
    requires q != Custom
    ensures Unpack(Value(q)) == PresetFields(q)
  {
    PresetValuesArePackings(q);
    UnpackPack(PresetFields(q));
  }
}
