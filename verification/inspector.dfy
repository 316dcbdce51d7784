/** The capture-blur inspector's quality-mode state: the four serialized
    settings together with the "custom advanced option" flag, the
    `qualityMode` property that reads and writes them, and the transitions
    the inspector applies when it is enabled and when the user picks a
    quality from the popup.
 */
module QualityInspector {
  import opened Int32
  import opened QualityCodec

  /** The inspector's view of the component: the serialized settings and
      whether the advanced (custom) controls are unlocked. */
  datatype Editor = Editor(fields: Fields, customAdvancedOption: bool)

  /** The preset `Fields` reads as when it is not locked to `Custom`. */
  predicate ReadsAs(f: Fields, q: Quality) {
    q != Custom && Pack(f) == Value(q)
  }

  /** A freshly created inspector: the flag starts cleared, so the
      property reads whatever preset the settings match, and `Custom` when
      they match none. */
  function Initial(f: Fields): (e: Editor)
    ensures GetQualityMode(e) == Custom <==> forall q :: !ReadsAs(f, q)
    ensures forall q :: ReadsAs(f, q) ==> GetQualityMode(e) == q
  {
    Editor(f, false)
  }

  /** The `qualityMode` getter. */
  function GetQualityMode(e: Editor): (q: Quality)
    ensures e.customAdvancedOption ==> q == Custom
    ensures q != Custom ==> !e.customAdvancedOption && ReadsAs(e.fields, q)
    ensures forall p :: !e.customAdvancedOption && ReadsAs(e.fields, p) ==> q == p
  {
    if e.customAdvancedOption then Custom
    else match FromValue(Pack(e.fields))
      case Some(q) => q
      case None => Custom
  }

  /** The `qualityMode` setter: a preset overwrites each setting with its
      slice of the preset's value; `Custom` writes nothing. */
  function SetQualityMode(e: Editor, q: Quality): (e': Editor)
    ensures e'.customAdvancedOption == e.customAdvancedOption
    ensures q == Custom ==> e' == e
    ensures q != Custom ==> e'.fields == PresetFields(q)
    ensures q != Custom ==> Pack(e'.fields) == Value(q)
  {
    if q != Custom then
      var v := Value(q);
      UnpackPreset(q);
      PresetValuesArePackings(q);
      e.(fields := Unpack(v))
    else
      e
  }

  /** `OnEnable`: the flag becomes whether the property currently reads `Custom`. */
  function Enable(e: Editor): (e': Editor)
    ensures e'.fields == e.fields
    ensures e'.customAdvancedOption <==> e.customAdvancedOption || forall q :: !ReadsAs(e.fields, q)
    ensures GetQualityMode(e') == GetQualityMode(e)
  {
    e.(customAdvancedOption := GetQualityMode(e) == Custom)
  }

  /** The user picks `q` from the quality popup: the flag records whether
      the pick is `Custom`, then the setter applies it. */
  function SelectQuality(e: Editor, q: Quality): (e': Editor)
    ensures e'.customAdvancedOption <==> q == Custom
    ensures q == Custom ==> e'.fields == e.fields
    ensures q != Custom ==> e'.fields == PresetFields(q)
  {
    SetQualityMode(e.(customAdvancedOption := q == Custom), q)
  }

  /** One pass of the quality section of `OnInspectorGUI`: `picked` is the
      popup's value when the change check fired, and `edited` the values
      of the four advanced controls, which are drawn only while the flag
      is set. */
  function InspectorPass(e: Editor, picked: Option<Quality>, edited: Fields): (e': Editor)
    ensures picked.None? && !e.customAdvancedOption ==> e' == e
    ensures picked.None? ==> e'.customAdvancedOption == e.customAdvancedOption
    ensures picked == Some(Custom) ==> e'.customAdvancedOption && e'.fields == edited
    ensures picked.Some? && picked.value != Custom ==> e' == SelectQuality(e, picked.value)
    ensures picked.Some? ==> GetQualityMode(e') == picked.value
    ensures e.customAdvancedOption && picked.None? ==> e'.fields == edited && GetQualityMode(e') == Custom
  {
    var e1 := if picked.Some? then SelectThenGet(e, picked.value); SelectQuality(e, picked.value) else e;
    if e1.customAdvancedOption then e1.(fields := edited) else e1
  }

  //----------------------------------------------------------------------
  // Properties of the quality-mode state.
  //----------------------------------------------------------------------

  /** With the flag cleared the property reads a preset exactly when the
      packed settings equal that preset's value, and `Custom` otherwise. */
  lemma GetterMatchesPackedValue(e: Editor, q: Quality)
    requires !e.customAdvancedOption
    ensures q != Custom ==> (GetQualityMode(e) == q <==> Pack(e.fields) == Value(q))
    ensures GetQualityMode(e) == Custom <==> forall p :: p != Custom ==> Pack(e.fields) != Value(p)
  {
  }

  /** Setting a preset and reading the property back yields the preset. */
  lemma SetThenGet(e: Editor, q: Quality)
    requires !e.customAdvancedOption && q != Custom
    ensures GetQualityMode(SetQualityMode(e, q)) == q
  {
  }

  /** Setting `Custom` alone does not make the property read `Custom`:
      settings that match a preset still read as that preset.  This is why
      the popup handler sets the flag before calling the setter. */
  lemma SetCustomAloneKeepsPreset(e: Editor, p: Quality)
    requires !e.customAdvancedOption && ReadsAs(e.fields, p)
    ensures GetQualityMode(SetQualityMode(e, Custom)) == p
  {
  }

  /** After a pick from the popup the property reads the pick. */
  lemma SelectThenGet(e: Editor, q: Quality)
    ensures GetQualityMode(SelectQuality(e, q)) == q
  {
    if q != Custom {
      SetThenGet(e.(customAdvancedOption := false), q);
    }
  }

  /** Settings that match no preset read as `Custom` on a freshly
      enabled inspector, and unlock the advanced controls. */
  lemma EnableFreshInspector(f: Fields)
    ensures Enable(Initial(f)).customAdvancedOption <==> forall q :: q != Custom ==> Pack(f) != Value(q)
    ensures forall q :: q != Custom && Pack(f) == Value(q) ==> GetQualityMode(Enable(Initial(f))) == q
  {
  }

  /** Enabling twice is the same as enabling once. */
  lemma EnableIdempotent(e: Editor)
    ensures Enable(Enable(e)) == Enable(e)
  {
  }

  /** For in-range settings the property reads a preset exactly when the
      settings are that preset's settings. */
  lemma InRangeReadsPresetIffPresetFields(f: Fields, q: Quality)
    requires InRange(f) && q != Custom
    ensures GetQualityMode(Initial(f)) == q <==> f == PresetFields(q)
  {
    var pf := PresetFields(q);
    GetterMatchesPackedValue(Initial(f), q);
    PresetValuesArePackings(q);
    PackInjective(f, pf);
  }

  /** Out-of-range settings can read as a preset: an oversized desampling
      rate, and an iteration count whose shifted value wraps past 2^32,
      both read as `Fast`; and non-negative settings can wrap to `Custom`'s
      value -1. */
  lemma OutOfRangeAliases()
    ensures GetQualityMode(Initial(Fields(2338, 0, 0, 0))) == Fast
    ensures GetQualityMode(Initial(Fields(2, 2, 1, 0x40_0002))) == Fast
    ensures Pack(Fields(0x3FF, 0, 0, 0x3F_FFFF)) == Value(Custom)
  {
    PowTable();
  }
}
