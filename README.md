# Survival prediction form: step lookup and input encoding

This project models the computational core of `app.py`, a web form that
predicts survival with a random survival forest. The core has two parts.

- **Survival lookup** (`survival.dfy`, module `SurvivalLookup`). The model
  returns a survival curve: ascending event times and a survival probability
  for each of them. `get_survival_probability` reads the curve at a query time.
  It answers 1.0 at or before the first time. At or after the last time it
  answers the last probability. In between it answers the probability of the
  rightmost time at or before the query, found with numpy's right-sided
  `searchsorted`. The search is modelled as a recursive binary search
  (`BisectRight`). The lookup is proved equal to an independent reference step
  function built on a linear scan (`LastAtOrBefore`, `StepValue`). The form and
  the summary table read the curve at the fixed horizons of 1, 2, 3 and 4 years.
- **Feature catalogue and input form** (`features.dfy`, module `Features`, and
  `inputs.dfy`, module `PatientInputs`). The catalogue holds:
  - the model's column names and their display labels (`FEATURE_LABEL_MAP`);
  - the inverse map from labels back to column names (`LABEL_FEATURE_MAP`);
  - the widget configuration per label (`FEATURE_CONFIG`);
  - the fallback feature list.

  The sidebar loop turns each feature's widget response into an entry of the
  `user_inputs` dictionary. A Yes/No feature (its name ends in `_Yes`, or its
  configuration is a select) is stored as 1.0 or 0.0; any other feature stores
  the number entered. The summary loop turns those entries back into the rows
  of the "Input Parameters" table. The "Model Features" panel splits the labels
  into two columns.

State is represented as follows:
- The Python dictionary `user_inputs` keeps insertion order. It is modelled as
  `UserInputs(order, values)`: the keys in iteration order and the map of
  entries.
- Dictionary assignment is `Assign`. An existing key keeps its place; a new key
  goes to the end.
- The two loops are methods with `while` loops. They are proved against the
  specification function `EncodeInputs` and the row function `SummaryRowFor`.

The widgets are not modelled. `selections[i]` is what the select box of the
i-th feature returns, and `amounts[i]` is what its number input returns; the
loop reads only the one the feature's kind calls for.

Floating-point times and probabilities are modelled as exact reals. The lookup
only compares and indexes: it does no arithmetic. The only arithmetic in the
modelled code is the column split point, on naturals.

Edge cases of the lookup:
- On an empty curve the code indexes `times[0]` and raises `IndexError`.
  `GetSurvivalProbability` models that: it requires only ascending times and
  returns `IndexError` for an empty curve (`EmptyCurveRaises`), or for a
  probability sequence too short for the index it reads.
- At exactly the first time the code answers 1.0, not `probs[0]`. This is why
  `ConstantBetweenKnots` requires the query to lie after the first time.

## Model

| member | source | states |
|---|---|---|
| SurvivalLookup.SearchSortedRight | app.py:351 | The right insertion point splits the ascending times: every time before it is at most the query, every time from it on is greater. |
| SurvivalLookup.BisectRight | app.py:351 | The binary search keeps that split as its invariant over the shrinking window and returns a point inside the window. |
| SurvivalLookup.LastAtOrBefore | app.py:350-352 | Reference definition: the index of the last time at or before the query (or -1), with every later time greater than the query. |
| SurvivalLookup.GetSurvivalProbability | app.py:340-352 | An empty curve raises `IndexError`; a well-formed curve always gives a probability; every answer is 1.0 or one of the curve's probabilities. |
| SurvivalLookup.EmptyCurveRaises | app.py:345 | On an empty curve the lookup raises `IndexError`, whatever the query. |
| SurvivalLookup.MatchesStepFunction | app.py:340-352 | On every well-formed curve the lookup never raises and equals the reference step function: 1.0 up to the first time, then the probability of the last time at or before the query. |
| SurvivalLookup.OneAtOrBeforeFirstKnot | app.py:345-346 | At or before the first time the answer is exactly 1.0, whatever the first probability is. |
| SurvivalLookup.HoldsLastValue | app.py:345-348 | At or after the last time the answer is the last probability (not an error), unless the query is also at or before the first time, then it is 1.0. |
| SurvivalLookup.MiddleIndexIsRightmostKnot | app.py:350-352 | In the middle branch the index is the largest one whose time is at most the query; it lies in 0 .. len-2, so clamping at 0 never changes it. |
| SurvivalLookup.RightmostKnotBetween | app.py:350-352 | After the first time, the answer is the probability of the rightmost time at or before the query. |
| SurvivalLookup.ConstantBetweenKnots | app.py:350-352 | The answer is the same for every query in a half-open interval between two consecutive times after the first time: the left value is held, not interpolated. |
| SurvivalLookup.LastAtOrBeforeMonotone | app.py:350-352 | A later query never finds an earlier rightmost time. |
| SurvivalLookup.NonIncreasingInTime | app.py:340-352 | On a curve whose probabilities do not increase and start at most 1.0, both answers are probabilities and the later one is not larger. |
| SurvivalLookup.AnswerIsProbability | app.py:340-352 | If every probability of a well-formed curve lies in [0, 1], so does every answer. |
| SurvivalLookup.WorkedExample | app.py:340-352 | On the curve with times 0..5 and probabilities 1.0, 0.9, 0.75, 0.6, 0.5, 0.4 the lookup gives 0.9 at 1 and 1.5, 0.5 at 4.9, 0.4 at 10 and 1.0 at 0. |
| SurvivalLookup.SurvivalAtHorizons | app.py:539-542 | There are exactly four horizon lookups (1, 2, 3 and 4 years); what they hold is stated by the two lemmas below. |
| SurvivalLookup.HorizonsPastCurveHoldLast | app.py:539-542 | On a well-formed curve all four horizons give probabilities; a horizon beyond the last time shows the last probability. |
| SurvivalLookup.HorizonsNonIncreasing | app.py:539-542 | On a non-increasing curve starting at most 1.0 the 1- to 4-year survival values do not increase. |
| Features.Invert | app.py:198 | Inverting a map with distinct values has the values as keys, and maps each value back to its key in both directions. |
| Features.LabelMapInjective | app.py:185-196 | The ten display labels are distinct. |
| Features.LabelFeatureMap | app.py:185-198 | The label-to-column map has exactly the labels as keys and maps each column's label back to that column. |
| Features.DisplayNameRoundTrip | app.py:483 | A mapped column name, shown by its label, maps back to itself; an unmapped name is shown as itself. |
| Features.LabelRoundTrip | app.py:198 | A label maps to a column name whose display name is that label again. |
| Features.DisplayName | app.py:483 | A mapped column name is shown by its label; an unmapped name is shown as itself. |
| Features.IsBinary | app.py:486 | The Yes/No rule both loops use: a feature is Yes/No exactly when its name ends in "_Yes" or its display name's configuration is a select (the empty fallback never is). Its consequences are stated by DefaultBinaryRulesAgree, BinaryEntriesAreFlags and ShowValue. |
| Features.ConfigFor | app.py:484 | Definition: the configuration of a display label, or none (the empty dictionary) when the label has no entry; its consequences are stated by NumberFieldFor, SelectWidgetStartsAtNo, NumberWidgetStartsInRange, ShowValue and IsBinary. |
| Features.SelectOptions | app.py:491 | Definition: the options of a select configuration, otherwise the fallback ["No", "Yes"]; SelectWidgetStartsAtNo states that the widget starts at "No". |
| Features.UnitOf | app.py:497 | Definition: the unit of a numeric configuration, otherwise ""; the caption rule of NumberFieldFor and the Measured rows of ShowValue state its use. |
| Features.NumberFieldFor | app.py:497-506 | The number input's caption starts with the display name, is exactly the display name followed by " (unit)" when the unit is non-empty and the display name alone otherwise; a numeric configuration gives the widget its configured min, max, default and step; without one the widget falls back to range 0..1000, value 0 and step 0.1. |
| Features.DefaultFeaturesConfigured | app.py:185-285 | Every feature of the fallback list has a label, and every such label has a configuration. |
| Features.DefaultBinaryRulesAgree | app.py:486 | For every fallback feature, the form's Yes/No test holds exactly when the name ends in "_Yes", and exactly when its configuration is a select. |
| Features.BinaryRulesAgreeOn | app.py:486 | The same agreement for one fallback feature. |
| Features.NumericFeature | app.py:203-285 | The first seven fallback features are configured as numeric inputs. |
| Features.ConfiguredDefaultsConsistent | app.py:203-285 | Every numeric default lies in its range; every select entry starts at its first option, and that option is the default "No". |
| Features.SelectWidgetStartsAtNo | app.py:483-494 | For any feature, the select box the form would show offers at least one option and starts at "No". |
| Features.NumberWidgetStartsInRange | app.py:483-506 | For any feature, the number input the form would show starts at a value inside its own range. |
| PatientInputs.Assign | app.py:495-500 | Dictionary assignment sets the key's entry and leaves the others; the existing keys keep their order at the front, and at most one key is added. |
| PatientInputs.AssignKeepsValid | app.py:495-500 | Dictionary assignment keeps every key listed once in the iteration order, and listed exactly when it has an entry. |
| PatientInputs.EncodeSelection | app.py:495 | A selection is encoded as 0.0 or 1.0, and as 1.0 exactly when it is "Yes". |
| PatientInputs.EncodeFeature | app.py:488-507 | Definition: the entry stored for one feature, the encoded selection for a Yes/No feature and the number entered otherwise; BinaryEntriesAreFlags, LastOccurrenceWins and SummaryOfDistinctForm state its properties. |
| PatientInputs.EncodeInputs | app.py:482-507 | After n features the dictionary holds at most n keys; its content is stated by the lemmas below. |
| PatientInputs.CollectInputs | app.py:480-507 | The sidebar loop builds exactly the dictionary that assigning each feature's encoded response in feature-list order gives, and that dictionary is well formed. |
| PatientInputs.InputsCoverFeatures | app.py:482-507 | The dictionary has an entry for exactly the features handled. |
| PatientInputs.InputsValid | app.py:482-507 | The dictionary lists each of its keys exactly once. |
| PatientInputs.BinaryEntriesAreFlags | app.py:486-495 | Every entry of a Yes/No feature is 0.0 or 1.0. |
| PatientInputs.LastOccurrenceWins | app.py:482-507 | The entry of a feature encodes the response at its last occurrence in the feature list: 1.0/0.0 from the selection for a Yes/No feature, otherwise the number entered. |
| PatientInputs.DistinctKeepsOrder | app.py:482-507 | Without repeated names the dictionary iterates in feature-list order. |
| PatientInputs.DecodeFlag | app.py:631-632 | An entry is shown as "Yes" or "No", and as "Yes" exactly when it equals 1. |
| PatientInputs.ShowValue | app.py:630-634 | A Yes/No feature (and only such a feature) shows "Yes" exactly when its entry is 1 and "No" otherwise; any other feature shows its value with its configured unit. |
| PatientInputs.SummaryRowFor | app.py:628-636 | A row is labelled by the feature's label, or by the feature itself when it has none, and shows Yes/No exactly for a Yes/No feature. |
| PatientInputs.SummarizeInputs | app.py:626-637 | The summary has one row per dictionary entry, in iteration order, each the display name with "Yes"/"No" for a Yes/No feature or the value with its unit otherwise. |
| PatientInputs.DecodeEncodeSelection | app.py:495 | Decoding an encoded selection shows "Yes" exactly when "Yes" was selected, and "No" otherwise. |
| PatientInputs.EncodeDecodeFlag | app.py:631-632 | Encoding a decoded 0.0/1.0 entry gives the entry back. |
| PatientInputs.SummaryShowsSelection | app.py:628-632 | Through the form and back, a Yes/No feature's summary shows "Yes" exactly when "Yes" was selected at its last occurrence, and "No" exactly when it was not. |
| PatientInputs.SummaryOfDistinctForm | app.py:626-637 | For a feature list without repeats the entries come out in feature-list order, and each row shows the display name with the selection or the number entered and its unit. |
| PatientInputs.DisplayNames | app.py:655 | One display name per feature. |
| PatientInputs.DisplayNamesInOrder | app.py:655 | The i-th display name is the i-th feature's label, or the feature itself when it has none. |
| PatientInputs.SplitColumns | app.py:658-665 | The first column gets ceil(n/2) labels, the second the rest, the columns differ in length by at most one, and together they are the list in order. |
| PatientInputs.ColumnsListEveryFeature | app.py:655-665 | Every feature's display label appears in its place: the first ceil(n/2) features in the first column, the rest in the second. |

## Left out

- Streamlit UI, page configuration, CSS and HTML card markup (app.py:17-180, 460-674 apart from the modelled loops): presentation only. The widgets' return values are parameters (`selections`, `amounts`), and their descriptions (help texts) are kept only as data in `FieldConfig`.
- Loading the model and the feature file (app.py:290-335): file I/O, path search and caching. The model keeps only the fallback feature list (`DEFAULT_FEATURE_LIST`); every lemma about the form loop holds for any feature list.
- `predict_survival` (app.py:357-361): a call into the random survival forest library, whose output curve is taken as a parameter of the lookup.
- Demo-mode synthetic curve (app.py:524-534): random numbers and floating-point exponentials.
- `plot_survival_curve_professional` (app.py:366-453): plotting. Its guard that marks a horizon only when it is at most the last time (app.py:397) is not modelled.
- Formatting of probabilities as percentages and of entries to two decimals (app.py:565, 619, 635): float-to-string conversion. The summary row carries the value and its unit (`Measured`) instead of the formatted string.
- Reordering the input table's columns into feature-list order (app.py:518-519): a library call.
- Purity of the lookup (app.py:340-352): it holds by construction, because `GetSurvivalProbability` is a Dafny function of its arguments. No lemma is stated for it.
- Features.Invert: requires distinct values. For repeated values the source's dictionary comprehension keeps the key inserted last. That order is not modelled, because the label map's values are distinct (`LabelMapInjective`).
- PatientInputs.LastOccurrenceWins: repeated feature names are modelled by Python dictionary semantics only (a later assignment overwrites the entry). The widget library might reject a second identical widget before that point. That behaviour belongs to the library, not to `app.py`, and is not modelled.
- Floating-point behaviour of times and probabilities is not modelled: they are exact reals. Entry comparison with 1 in the summary is modelled as equality of reals.
