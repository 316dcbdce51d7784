# Capture-blur inspector: quality-preset codec

A Dafny model of the quality-preset logic in the `UICaptureBlur` editor
inspector. The inspector shows four serialized settings of the capture-blur
component as one "Quality Mode" popup:

- the result desampling rate;
- the reduction (working) rate;
- the filter mode;
- the blur iteration count.

The getter packs the four settings into one C# `int`. The offsets are
0, 4, 8 and 10 bits. It then compares the packed value with the enumeration
values `Fast`, `Medium` and `Detail`, and falls back to `Custom = -1`. The
setter slices a preset's value back into the four settings with shifts and
the masks `Bits4` and `Bits2`. A `_customAdvancedOption` flag starts cleared.
`OnEnable` sets it to whether the property currently reads `Custom`.
Choosing from the popup sets it to whether the pick is `Custom`. While the
flag is true, it forces the getter to read `Custom` and unlocks the four
advanced controls.

Files:

- `int32.dfy` (module `Int32`) covers the C# `int` arithmetic the codec
  relies on. The serialized settings are modelled with a `int32` newtype.
  Unchecked `+` and `<<` wrap modulo 2^32. `>>` is an arithmetic shift
  (floor division). `& ((1 << w) - 1)` keeps the low `w` bits.
- `codec.dfy` (module `QualityCodec`) holds the bit layout, `Pack` (the
  getter's packing), `Slice`/`Unpack` (the setter's decoding), the
  `Quality` enumeration with its values, and `FromValue`. `FromValue` models
  `Enum.IsDefined` followed by the cast, as membership in
  {Fast, Medium, Detail, Custom}.
- `inspector.dfy` (module `QualityInspector`) holds the inspector state:
  the four settings plus the flag. It defines the `qualityMode` getter and
  setter, `OnEnable`, the popup handler, and one pass of the quality section
  of `OnInspectorGUI`.

The presets are built from two enumerations that are not part of this model.
`UICaptureBlur.DesamplingRate` is taken as None = 0, x1 = 1, x2 = 2.
`UnityEngine.FilterMode.Bilinear` is taken as 1. With these values,
Fast = 2338, Medium = 3345 and Detail = 5392. `QualityCodec.PresetFacts`
proves what the codec relies on:

- every preset setting fits its slice;
- the three values are non-negative, below 2^14 and pairwise distinct;
- none of them equals -1.

One might expect out-of-range settings to fall back to `Custom`; the code
does not. It compares only the packed 32-bit value, so out-of-range
settings can read as a preset. Examples are a desampling rate of 2338, or
an iteration count whose shifted value wraps past 2^32. Non-negative
settings can also wrap to -1. The model follows the code, and
`QualityInspector.OutOfRangeAliases` exhibits these cases. For settings
that fit their slices and with the flag clear, a preset is read exactly
when the settings are that preset's settings
(`QualityInspector.InRangeReadsPresetIffPresetFields`).

## Model

| member | source | states |
|---|---|---|
| `Int32.Wrap` | Assets/UICaptureBlur/Scripts/Editor/UICaptureBlurEditor.cs:169-172 | unchecked `int` arithmetic: the result is congruent to the exact value modulo 2^32, and equals it when it fits in 32 bits |
| `Int32.Add` | Assets/UICaptureBlur/Scripts/Editor/UICaptureBlurEditor.cs:169-172 | the unchecked sum differs from the exact sum by a multiple of 2^32 |
| `Int32.ShiftLeft` | Assets/UICaptureBlur/Scripts/Editor/UICaptureBlurEditor.cs:169-172 | `x << k` is congruent to `x * 2^k` modulo 2^32 |
| `Int32.ShiftRight` | Assets/UICaptureBlur/Scripts/Editor/UICaptureBlurEditor.cs:181-184 | `x >> k` is the `r` with `r * 2^k <= x < (r + 1) * 2^k` (rounds toward negative infinity) |
| `Int32.LowBits` | Assets/UICaptureBlur/Scripts/Editor/UICaptureBlurEditor.cs:149-150 | masking with `w` one-bits yields a value in `[0, 2^w)` that differs from the input by a multiple of 2^w |
| `QualityCodec.Slice` | Assets/UICaptureBlur/Scripts/Editor/UICaptureBlurEditor.cs:181-184 | `(v >> shift) & mask` always lies in `[0, 2^width)` |
| `QualityCodec.Unpack` | Assets/UICaptureBlur/Scripts/Editor/UICaptureBlurEditor.cs:181-184 | the setter's decoding always produces settings that fit their slices (0..15, 0..15, 0..3, 0..15) |
| `QualityCodec.FromValue` | Assets/UICaptureBlur/Scripts/Editor/UICaptureBlurEditor.cs:174 | `Enum.IsDefined` plus the cast: a result is a member whose value is `v`, and every member whose value is `v` is the result |
| `QualityCodec.Pack` | Assets/UICaptureBlur/Scripts/Editor/UICaptureBlurEditor.cs:169-172 | the getter's shift-and-add packing equals `d + 16r + 256f + 1024i` wrapped to 32 bits, for any settings; `PackInRange`, `UnpackPack` and `PackInjective` state what it means for settings that fit their slices |
| `QualityCodec.PresetFields` | Assets/UICaptureBlur/Scripts/Editor/UICaptureBlurEditor.cs:20-22 | the settings each preset is built from fit their slices |
| `QualityCodec.Value` | Assets/UICaptureBlur/Scripts/Editor/UICaptureBlurEditor.cs:18-23 | each preset's value lies in `[0, 2^14)`, so it never collides with `Custom`'s -1; `PresetValuesArePackings` ties each value to its settings |
| `QualityCodec.PresetValuesArePackings` | Assets/UICaptureBlur/Scripts/Editor/UICaptureBlurEditor.cs:20-22 | each preset's value is the getter's packing of the preset's settings, and equals the exact weighted sum, with no wrap-around |
| `QualityCodec.PackInRange` | Assets/UICaptureBlur/Scripts/Editor/UICaptureBlurEditor.cs:169-172 | for settings that fit their slices nothing wraps: the packed value is the exact sum, in `[0, 2^14)` |
| `QualityCodec.SliceOfComposed` | Assets/UICaptureBlur/Scripts/Editor/UICaptureBlurEditor.cs:181-184 | slicing `lo + 2^s * (x + 2^w * hi)` at offset `s`, width `w` gives back `x` |
| `QualityCodec.UnpackPack` | Assets/UICaptureBlur/Scripts/Editor/UICaptureBlurEditor.cs:169-184 | unpacking with the masks recovers every field that fits its slice |
| `QualityCodec.PackUnpack` | Assets/UICaptureBlur/Scripts/Editor/UICaptureBlurEditor.cs:169-184 | every 14-bit value is the packing of its own unpacking |
| `QualityCodec.PackInjective` | Assets/UICaptureBlur/Scripts/Editor/UICaptureBlurEditor.cs:169-172 | for settings that fit their slices, equal packed values mean equal settings, and conversely |
| `QualityCodec.PresetFacts` | Assets/UICaptureBlur/Scripts/Editor/UICaptureBlurEditor.cs:18-24 | preset settings fit their slices; the preset values lie in `[0, 2^14)`, and all four members have distinct values |
| `QualityCodec.InRangeNeverCustom` | Assets/UICaptureBlur/Scripts/Editor/UICaptureBlurEditor.cs:20-23 | settings that fit their slices never pack to `Custom`'s -1 |
| `QualityCodec.UnpackPreset` | Assets/UICaptureBlur/Scripts/Editor/UICaptureBlurEditor.cs:20-22 | decoding a preset's value gives exactly the settings the preset was built from |
| `QualityInspector.Initial` | Assets/UICaptureBlur/Scripts/Editor/UICaptureBlurEditor.cs:151 | because the flag starts false, a new inspector reads `Custom` exactly when its settings match no preset, and otherwise reads the preset they match |
| `QualityInspector.GetQualityMode` | Assets/UICaptureBlur/Scripts/Editor/UICaptureBlurEditor.cs:164-175 | with the flag set it reads `Custom`; a preset is read only when the flag is clear and the packed settings equal its value; if they equal some preset's value, that preset is read |
| `QualityInspector.SetQualityMode` | Assets/UICaptureBlur/Scripts/Editor/UICaptureBlurEditor.cs:176-186 | `Custom` changes nothing; a preset replaces the settings with exactly the preset's settings, whose packing is the preset's value; the flag is untouched |
| `QualityInspector.Enable` | Assets/UICaptureBlur/Scripts/Editor/UICaptureBlurEditor.cs:44 | the settings are kept; the flag becomes set exactly when it was set or the settings read as no preset; what the getter reads does not change |
| `QualityInspector.SelectQuality` | Assets/UICaptureBlur/Scripts/Editor/UICaptureBlurEditor.cs:105-109 | the flag becomes `q == Custom`; picking `Custom` keeps the settings; picking a preset installs the preset's settings |
| `QualityInspector.InspectorPass` | Assets/UICaptureBlur/Scripts/Editor/UICaptureBlurEditor.cs:102-122 | without a pick the flag keeps its value, and with the flag clear nothing changes; after a pick the getter reads the pick; with the flag set, the advanced controls' values are written and the getter still reads `Custom` |
| `QualityInspector.GetterMatchesPackedValue` | Assets/UICaptureBlur/Scripts/Editor/UICaptureBlurEditor.cs:169-174 | with the flag clear, a preset is read exactly when the packed value equals its value; `Custom` is read exactly when no preset's value matches |
| `QualityInspector.SetThenGet` | Assets/UICaptureBlur/Scripts/Editor/UICaptureBlurEditor.cs:162-186 | with the flag clear, setting a preset and reading back gives the same preset |
| `QualityInspector.SetCustomAloneKeepsPreset` | Assets/UICaptureBlur/Scripts/Editor/UICaptureBlurEditor.cs:178 | with the flag clear, setting `Custom` leaves settings that match a preset reading as that preset, so the flag must be set first |
| `QualityInspector.SelectThenGet` | Assets/UICaptureBlur/Scripts/Editor/UICaptureBlurEditor.cs:105-109 | after any pick from the popup, the getter reads the pick |
| `QualityInspector.EnableFreshInspector` | Assets/UICaptureBlur/Scripts/Editor/UICaptureBlurEditor.cs:44 | on a new inspector, enabling sets the flag exactly when the packed settings match no preset; otherwise the matching preset is read |
| `QualityInspector.EnableIdempotent` | Assets/UICaptureBlur/Scripts/Editor/UICaptureBlurEditor.cs:44 | enabling twice gives the same state as enabling once |
| `QualityInspector.InRangeReadsPresetIffPresetFields` | Assets/UICaptureBlur/Scripts/Editor/UICaptureBlurEditor.cs:169-174 | with the flag clear and settings that fit their slices, a preset is read exactly when the settings are that preset's settings |
| `QualityInspector.OutOfRangeAliases` | Assets/UICaptureBlur/Scripts/Editor/UICaptureBlurEditor.cs:169-174 | out-of-range settings (2338, 0, 0, 0) and (2, 2, 1, 0x400002) read as `Fast`; non-negative settings (0x3FF, 0, 0, 0x3FFFFF) pack to -1 |

## Left out

- GUI rendering is not modelled: property fields, labels, spacing, indent levels, layout scopes and the body of `DrawEffectProperties`. It has no behaviour to state. `InspectorPass` models only the state the quality section writes.
- Serialized-property lookup by name (`FindProperty`, `serializedObject.Update`/`ApplyModifiedProperties`) and `base.OnEnable` are not modelled. The four handles are plain fields of `Fields`.
- The Debug buttons (`Release`, the deferred `Capture` through `EditorApplication.delayCall`, the `capturedTexture` check) are left out. They are host lifecycle calls and frame scheduling.
- `DrawDesamplingRate` is left out, and so is the `GetDesamplingSize` it calls. The size computation lives in the component, which is not part of this model.
- The unused handles `_spKeepSizeToRootCanvas` and `_spCaptureOnEnable` are left out.
- The desampling-rate and filter-mode enumerations are not modelled. Only the four members the presets use (None, x1, x2 and Bilinear) are named constants.
- `InspectorPass`: the change check of the popup is an input. The advanced controls' values are also an input, because they come from user interaction.
- `SetQualityMode` is modelled on enumeration members only. The C# setter would also accept an arbitrary `int` cast to `QualityMode`, but the inspector never passes one.
- The model has a single target. The editor allows editing several objects at once; then the getter reads one target's settings while the setter writes all of them. That multi-object view is not modelled.
