/**
 The feature catalogue of the input form: the model's column names, their
 display labels, the inverse map from labels back to column names, the widget
 configuration per label, and the rule that tells a Yes/No feature from a
 numeric one.
 */
module Features {

  /** One entry of the feature configuration: a numeric input or a Yes/No select. */
  datatype FieldConfig =
    | Number(min: real, max: real, defaultValue: real, step: real, unit: string, description: string)
    | Select(options: seq<string>, defaultOption: string, description: string)

  /** A configuration lookup that may find nothing. */
  datatype Option<T> = None | Some(value: T)

  /** Model column name to display label. */
  const FEATURE_LABEL_MAP: map<string, string> := map[
    "post_dm_acarbose_Yes" := "α-glucosidase inhibitors",
    "post_htn_raas_Yes" := "RAAS inhibitors",
    "post_dm_metformin_Yes" := "Metformin",
    "入院年龄" := "Age",
    "尿素氮" := "Blood urea nitrogen",
    "肌酸激酶" := "Creatine Kinase",
    "渗透压" := "Serum Osmolality",
    "葡萄糖" := "Glucose",
    "CCI_score" := "CCI score",
    "纤维蛋白原" := "Fibrinogen"
  ]

  /** Display label to widget configuration. */
  const FEATURE_CONFIG: map<string, FieldConfig> := map[
    "Age" := Number(18.0, 100.0, 65.0, 1.0, "years", "Patient age at admission"),
    "Blood urea nitrogen" := Number(0.0, 50.0, 6.0, 0.1, "mmol/L", "Blood urea nitrogen level"),
    "Creatine Kinase" := Number(0.0, 5000.0, 100.0, 1.0, "U/L", "Creatine kinase level"),
    "Serum Osmolality" := Number(250.0, 350.0, 290.0, 1.0, "mOsm/kg", "Serum osmolality"),
    "Glucose" := Number(2.0, 40.0, 6.0, 0.1, "mmol/L", "Blood glucose level"),
    "CCI score" := Number(0.0, 20.0, 2.0, 1.0, "", "Charlson Comorbidity Index"),
    "Fibrinogen" := Number(0.0, 10.0, 3.0, 0.1, "g/L", "Fibrinogen level"),
    "α-glucosidase inhibitors" := Select(["No", "Yes"], "No", "α-glucosidase inhibitors use"),
    "RAAS inhibitors" := Select(["No", "Yes"], "No", "RAAS inhibitors use"),
    "Metformin" := Select(["No", "Yes"], "No", "Metformin use")
  ]

  /** The feature list used when no feature file can be read, in model column order. */
  const DEFAULT_FEATURE_LIST: seq<string> := [
    "入院年龄", "尿素氮", "肌酸激酶", "渗透压", "葡萄糖",
    "CCI_score", "纤维蛋白原", "post_dm_acarbose_Yes",
    "post_htn_raas_Yes", "post_dm_metformin_Yes"
  ]

  predicate Injective(m: map<string, string>)
  {
    forall x, y :: x in m && y in m && x != y ==> m[x] != m[y]
  }

  /** The inverse of a map whose values are distinct: each value maps back to its
      key. (With repeated values the source's dictionary comprehension would keep
      the key inserted last; that case does not arise for the label map.) */
  function Invert(m: map<string, string>): (r: map<string, string>)
    requires Injective(m)
    ensures r.Keys == m.Values
    ensures forall k :: k in m ==> m[k] in r && r[m[k]] == k
    ensures forall v :: v in r ==> r[v] in m && m[r[v]] == v
  {
    map k | k in m :: m[k] := k
  }

  /** The ten display labels are distinct, so the label map can be inverted. */
  lemma LabelMapInjective()
    ensures Injective(FEATURE_LABEL_MAP)
  {
  }

  /** LABEL_FEATURE_MAP: the inverse of the label map, display label to column name. */
  function LabelFeatureMap(): (r: map<string, string>)
    ensures r.Keys == FEATURE_LABEL_MAP.Values
    ensures forall k :: k in FEATURE_LABEL_MAP ==>
      FEATURE_LABEL_MAP[k] in r && r[FEATURE_LABEL_MAP[k]] == k
  {
    LabelMapInjective();
    Invert(FEATURE_LABEL_MAP)
  }

  /** The two module-level tables the form consults: column name to display
      label, and display label to widget configuration. */
  datatype Catalogue = Catalogue(labels: map<string, string>, configs: map<string, FieldConfig>)

  const CATALOGUE: Catalogue := Catalogue(FEATURE_LABEL_MAP, FEATURE_CONFIG)

  /** The label shown for a column name, or the name itself when the label map
      has no entry for it. */
  function DisplayName(cat: Catalogue, name: string): (shown: string)
    ensures name in cat.labels ==> shown == cat.labels[name]
    ensures name !in cat.labels ==> shown == name
  {
    if name in cat.labels then cat.labels[name] else name
  }

  /** The configuration of a display label; None stands for the empty dictionary
      the form falls back to when the label has no entry. */
  function ConfigFor(cat: Catalogue, displayName: string): Option<FieldConfig>
  {
    if displayName in cat.configs then Some(cat.configs[displayName]) else None
  }

  /** Python's string suffix test. */
  predicate EndsWith(s: string, suffix: string)
  {
    |suffix| <= |s| && s[|s| - |suffix|..] == suffix
  }

  /** The configuration's type is "select"; the empty fallback has no type. */
  predicate IsSelectConfig(config: Option<FieldConfig>)
  {
    config.Some? && config.value.Select?
  }

  /** The form treats a feature as Yes/No when its name ends in "_Yes" or its
      configuration is a select. */
  predicate IsBinary(cat: Catalogue, name: string): (b: bool)
    ensures EndsWith(name, "_Yes") ==> b
    ensures b <==> (EndsWith(name, "_Yes") ||
      (DisplayName(cat, name) in cat.configs && cat.configs[DisplayName(cat, name)].Select?))
  {
    EndsWith(name, "_Yes") || IsSelectConfig(ConfigFor(cat, DisplayName(cat, name)))
  }

  /** A mapped column name shown by its label maps back to itself; an unmapped
      name is shown as itself. */
  lemma DisplayNameRoundTrip(name: string)
    ensures name in FEATURE_LABEL_MAP ==> LabelFeatureMap()[DisplayName(CATALOGUE, name)] == name
    ensures name !in FEATURE_LABEL_MAP ==> DisplayName(CATALOGUE, name) == name
  {
  }

  /** Mapping a label to its column name and back gives the label again. */
  lemma LabelRoundTrip(shown: string)
    requires shown in LabelFeatureMap()
    ensures LabelFeatureMap()[shown] in FEATURE_LABEL_MAP
    ensures DisplayName(CATALOGUE, LabelFeatureMap()[shown]) == shown
  {
    LabelMapInjective();
  }

  lemma EndsWithAppended(prefix: string, suffix: string)
    ensures EndsWith(prefix + suffix, suffix)
  {
    assert (prefix + suffix)[|prefix|..] == suffix;
  }

  /** The options offered by the select widget: those of a select entry, otherwise
      the fallback ["No", "Yes"]. */
  function SelectOptions(config: Option<FieldConfig>): seq<string>
  {
    if IsSelectConfig(config) then config.value.options else ["No", "Yes"]
  }

  /** The parameters of the number_input widget for a feature, with the fallbacks
      used when the configuration lacks an entry. */
  datatype NumberField = NumberField(caption: string, min: real, max: real, value: real, step: real)

  /** The unit of a numeric entry; every other configuration falls back to "". */
  function UnitOf(config: Option<FieldConfig>): string
  {
    if config.Some? && config.value.Number? then config.value.unit else ""
  }

  function NumberFieldFor(displayName: string, config: Option<FieldConfig>): (f: NumberField)
    ensures |displayName| <= |f.caption| && f.caption[..|displayName|] == displayName
    ensures UnitOf(config) == "" <==> f.caption == displayName
    ensures UnitOf(config) != "" ==> f.caption == displayName + " (" + UnitOf(config) + ")"
    ensures config.Some? && config.value.Number? ==>
      && f.min == config.value.min && f.max == config.value.max
      && f.value == config.value.defaultValue && f.step == config.value.step
    ensures !(config.Some? && config.value.Number?) ==>
      f == NumberField(displayName, 0.0, 1000.0, 0.0, 0.1)
  {
    var unit := UnitOf(config);
    var caption := displayName + (if unit != "" then " (" + unit + ")" else "");
    if config.Some? && config.value.Number? then
      NumberField(caption, config.value.min, config.value.max, config.value.defaultValue, config.value.step)
    else
      NumberField(caption, 0.0, 1000.0, 0.0, 0.1)
  }

  /** Every feature of the default list has a display label and a configuration. */
  lemma DefaultFeaturesConfigured()
    ensures forall f :: f in DEFAULT_FEATURE_LIST ==>
      f in FEATURE_LABEL_MAP && DisplayName(CATALOGUE, f) in FEATURE_CONFIG
  {
  }

  /** A default feature is Yes/No exactly when its name ends in "_Yes", and exactly
      when its configuration is a select: the two rules of the form agree. */
  lemma DefaultBinaryRulesAgree()
    ensures forall f :: f in DEFAULT_FEATURE_LIST ==>
      && (IsBinary(CATALOGUE, f) <==> EndsWith(f, "_Yes"))
      && (EndsWith(f, "_Yes") <==> IsSelectConfig(ConfigFor(CATALOGUE, DisplayName(CATALOGUE, f))))
  {
    forall f | f in DEFAULT_FEATURE_LIST
      ensures EndsWith(f, "_Yes") <==> IsSelectConfig(ConfigFor(CATALOGUE, DisplayName(CATALOGUE, f)))
    {
      BinaryRulesAgreeOn(f);
    }
  }

  lemma BinaryRulesAgreeOn(f: string)
    requires f in DEFAULT_FEATURE_LIST
    ensures EndsWith(f, "_Yes") <==> IsSelectConfig(ConfigFor(CATALOGUE, DisplayName(CATALOGUE, f)))
  {
    if f == "post_dm_acarbose_Yes" {
      EndsWithAppended("post_dm_acarbose", "_Yes");
      assert DisplayName(CATALOGUE, f) == "α-glucosidase inhibitors";
    } else if f == "post_htn_raas_Yes" {
      EndsWithAppended("post_htn_raas", "_Yes");
      assert DisplayName(CATALOGUE, f) == "RAAS inhibitors";
    } else if f == "post_dm_metformin_Yes" {
      EndsWithAppended("post_dm_metformin", "_Yes");
      assert DisplayName(CATALOGUE, f) == "Metformin";
    } else {
      LastCharRulesOutYes(f);
      NumericFeature(f);
    }
  }

  /** The first seven default features are configured as numeric inputs. */
  lemma NumericFeature(f: string)
    requires f in DEFAULT_FEATURE_LIST[..7]
    ensures ConfigFor(CATALOGUE, DisplayName(CATALOGUE, f)).Some?
    ensures ConfigFor(CATALOGUE, DisplayName(CATALOGUE, f)).value.Number?
  {
    if f == "入院年龄" { assert DisplayName(CATALOGUE, f) == "Age"; }
    else if f == "尿素氮" { assert DisplayName(CATALOGUE, f) == "Blood urea nitrogen"; }
    else if f == "肌酸激酶" { assert DisplayName(CATALOGUE, f) == "Creatine Kinase"; }
    else if f == "渗透压" { assert DisplayName(CATALOGUE, f) == "Serum Osmolality"; }
    else if f == "葡萄糖" { assert DisplayName(CATALOGUE, f) == "Glucose"; }
    else if f == "CCI_score" { assert DisplayName(CATALOGUE, f) == "CCI score"; }
    else { assert DisplayName(CATALOGUE, f) == "Fibrinogen"; }
  }

  /** A name whose last character is not 's' does not end in "_Yes". */
  lemma LastCharRulesOutYes(s: string)
    requires 0 < |s| && s[|s| - 1] != 's'
    ensures !EndsWith(s, "_Yes")
  {
    if 4 <= |s| {
      assert s[|s| - 4..][3] == s[|s| - 1];
    }
  }

  /** Whatever the feature, the select widget the form would show for it offers
      at least one option and starts at "No". */
  lemma SelectWidgetStartsAtNo(name: string)
    ensures var opts := SelectOptions(ConfigFor(CATALOGUE, DisplayName(CATALOGUE, name)));
      0 < |opts| && opts[0] == "No"
  {
    ConfiguredDefaultsConsistent();
  }

  /** Whatever the feature, the number widget the form would show for it starts
      at a value inside its own range. */
  lemma NumberWidgetStartsInRange(name: string)
    ensures var f := NumberFieldFor(DisplayName(CATALOGUE, name), ConfigFor(CATALOGUE, DisplayName(CATALOGUE, name)));
      f.min <= f.value <= f.max
  {
    ConfiguredDefaultsConsistent();
  }

  /** Every numeric default lies in its range, and every select widget, which
      starts at index 0, starts at the configured default "No". */
  lemma ConfiguredDefaultsConsistent()
    ensures forall l :: l in FEATURE_CONFIG && FEATURE_CONFIG[l].Number? ==>
      FEATURE_CONFIG[l].min <= FEATURE_CONFIG[l].defaultValue <= FEATURE_CONFIG[l].max
    ensures forall l :: l in FEATURE_CONFIG && FEATURE_CONFIG[l].Select? ==>
      && 0 < |FEATURE_CONFIG[l].options|
      && FEATURE_CONFIG[l].options[0] == FEATURE_CONFIG[l].defaultOption == "No"
  {
  }
}
