/**
 The patient input form: the loop that turns each feature's widget response
 into the numeric user_inputs entry fed to the model, the loop that turns those
 entries back into the rows of the input summary table, and the split of the
 feature labels into two display columns.

 The widgets themselves are outside the model: selections[i] is what the
 select box of feature i returns, amounts[i] what its number input returns.
 */
module PatientInputs {
  import opened Features

  /** user_inputs, a Python dict: its keys in insertion order, and its entries. */
  datatype UserInputs = UserInputs(order: seq<string>, values: map<string, real>)

  predicate Distinct(s: seq<string>)
  {
    forall i, j :: 0 <= i < j < |s| ==> s[i] != s[j]
  }

  /** A dict lists each of its keys exactly once. */
  ghost predicate Valid(d: UserInputs)
  {
    Distinct(d.order) && forall k :: k in d.values <==> k in d.order
  }

  /** Dictionary assignment: a new key goes to the end of the iteration order, an
      existing key keeps its place and gets the new value. */
  function Assign(d: UserInputs, k: string, v: real): (r: UserInputs)
    ensures r.values == d.values[k := v]
    ensures |d.order| <= |r.order| <= |d.order| + 1 && r.order[..|d.order|] == d.order
  {
    if k in d.values then UserInputs(d.order, d.values[k := v])
    else UserInputs(d.order + [k], d.values[k := v])
  }

  lemma AssignKeepsValid(d: UserInputs, k: string, v: real)
    requires Valid(d)
    ensures Valid(Assign(d, k, v))
  {
  }

  /** A Yes/No selection becomes 1.0 for "Yes" and 0.0 for anything else. */
  function EncodeSelection(selection: string): (flag: real)
    ensures flag == 0.0 || flag == 1.0
    ensures flag == 1.0 <==> selection == "Yes"
  {
    if selection == "Yes" then 1.0 else 0.0
  }

  /** The entry stored for one feature, given both possible widget responses. */
  function EncodeFeature(cat: Catalogue, name: string, selection: string, amount: real): real
  {
    if IsBinary(cat, name) then EncodeSelection(selection) else amount
  }

  predicate Responses(featureList: seq<string>, selections: seq<string>, amounts: seq<real>)
  {
    |selections| == |featureList| && |amounts| == |featureList|
  }

  /** user_inputs after the form loop has handled the first n features. */
  function EncodeInputs(cat: Catalogue, featureList: seq<string>, selections: seq<string>, amounts: seq<real>, n: nat): (d: UserInputs)
    requires Responses(featureList, selections, amounts) && n <= |featureList|
    ensures |d.order| <= n
  {
    if n == 0 then UserInputs([], map[])
    else
      Assign(EncodeInputs(cat, featureList, selections, amounts, n - 1), featureList[n - 1],
             EncodeFeature(cat, featureList[n - 1], selections[n - 1], amounts[n - 1]))
  }

  /** The sidebar loop: one entry per feature, in feature-list order. */
  method CollectInputs(cat: Catalogue, featureList: seq<string>, selections: seq<string>, amounts: seq<real>)
    returns (userInputs: UserInputs)
    requires Responses(featureList, selections, amounts)
    ensures userInputs == EncodeInputs(cat, featureList, selections, amounts, |featureList|)
    ensures Valid(userInputs)
  {
    userInputs := UserInputs([], map[]);
    var i := 0;
    while i < |featureList|
      invariant 0 <= i <= |featureList|
      invariant userInputs == EncodeInputs(cat, featureList, selections, amounts, i)
    {
      var featureName := featureList[i];
      var displayName := DisplayName(cat, featureName);
      var config := ConfigFor(cat, displayName);
      var isBinary := EndsWith(featureName, "_Yes") || IsSelectConfig(config);
      var value: real;
      if isBinary {
        value := if selections[i] == "Yes" then 1.0 else 0.0;
      } else {
        value := amounts[i];
      }
      userInputs := Assign(userInputs, featureName, value);
      i := i + 1;
    }
    InputsValid(cat, featureList, selections, amounts, |featureList|);
  }

  /** The keys of the dict are exactly the features handled. */
  lemma {:induction false} InputsCoverFeatures(cat: Catalogue, featureList: seq<string>, selections: seq<string>, amounts: seq<real>, n: nat)
    requires Responses(featureList, selections, amounts) && n <= |featureList|
    ensures EncodeInputs(cat, featureList, selections, amounts, n).values.Keys == set i | 0 <= i < n :: featureList[i]
  {
    if n > 0 {
      InputsCoverFeatures(cat, featureList, selections, amounts, n - 1);
      assert (set i | 0 <= i < n :: featureList[i]) == (set i | 0 <= i < n - 1 :: featureList[i]) + {featureList[n - 1]};
    }
  }

  /** The dict lists each of its keys exactly once. */
  lemma {:induction false} InputsValid(cat: Catalogue, featureList: seq<string>, selections: seq<string>, amounts: seq<real>, n: nat)
    requires Responses(featureList, selections, amounts) && n <= |featureList|
    ensures Valid(EncodeInputs(cat, featureList, selections, amounts, n))
  {
    if n > 0 {
      InputsValid(cat, featureList, selections, amounts, n - 1);
      AssignKeepsValid(EncodeInputs(cat, featureList, selections, amounts, n - 1), featureList[n - 1],
        EncodeFeature(cat, featureList[n - 1], selections[n - 1], amounts[n - 1]));
    }
  }

  /** Every Yes/No entry of user_inputs is 0.0 or 1.0. */
  lemma {:induction false} BinaryEntriesAreFlags(cat: Catalogue, featureList: seq<string>, selections: seq<string>, amounts: seq<real>, n: nat)
    requires Responses(featureList, selections, amounts) && n <= |featureList|
    ensures var d := EncodeInputs(cat, featureList, selections, amounts, n);
      forall k :: k in d.values && IsBinary(cat, k) ==> d.values[k] == 0.0 || d.values[k] == 1.0
  {
    if n > 0 {
      BinaryEntriesAreFlags(cat, featureList, selections, amounts, n - 1);
    }
  }

  /** The entry of a feature is the encoding of its last occurrence in the list. */
  lemma {:induction false} LastOccurrenceWins(cat: Catalogue, featureList: seq<string>, selections: seq<string>, amounts: seq<real>, n: nat, j: nat)
    requires Responses(featureList, selections, amounts) && j < n <= |featureList|
    requires forall m :: j < m < n ==> featureList[m] != featureList[j]
    ensures var d := EncodeInputs(cat, featureList, selections, amounts, n);
      && featureList[j] in d.values
      && d.values[featureList[j]] == EncodeFeature(cat, featureList[j], selections[j], amounts[j])
  {
    if j < n - 1 {
      LastOccurrenceWins(cat, featureList, selections, amounts, n - 1, j);
    }
  }

  /** Without repeated names the dict iterates in feature-list order. */
  lemma {:induction false} DistinctKeepsOrder(cat: Catalogue, featureList: seq<string>, selections: seq<string>, amounts: seq<real>, n: nat)
    requires Responses(featureList, selections, amounts) && n <= |featureList|
    requires Distinct(featureList)
    ensures EncodeInputs(cat, featureList, selections, amounts, n).order == featureList[..n]
  {
    if n > 0 {
      DistinctKeepsOrder(cat, featureList, selections, amounts, n - 1);
      InputsCoverFeatures(cat, featureList, selections, amounts, n - 1);
      var k := featureList[n - 1];
      assert k !in EncodeInputs(cat, featureList, selections, amounts, n - 1).values by {
        forall i | 0 <= i < n - 1
          ensures featureList[i] != k
        {
        }
      }
      var before := EncodeInputs(cat, featureList, selections, amounts, n - 1);
      assert EncodeInputs(cat, featureList, selections, amounts, n).order == before.order + [k];
      assert featureList[..n] == featureList[..n - 1] + [k];
    }
  }

  /** What the summary table shows for one entry. */
  datatype Shown = YesNo(answer: string) | Measured(value: real, unit: string)

  datatype SummaryRow = SummaryRow(parameter: string, shown: Shown)

  /** The summary shows "Yes" for an entry equal to 1 and "No" for anything else. */
  function DecodeFlag(value: real): (answer: string)
    ensures answer == "Yes" || answer == "No"
    ensures answer == "Yes" <==> value == 1.0
  {
    if value == 1.0 then "Yes" else "No"
  }

  /** A Yes/No feature shows its decoded flag; any other feature its value and unit. */
  function ShowValue(cat: Catalogue, name: string, value: real): (shown: Shown)
    ensures shown.YesNo? <==> IsBinary(cat, name)
    ensures shown.YesNo? ==> (shown.answer == "Yes" <==> value == 1.0) && (shown.answer == "No" <==> value != 1.0)
    ensures shown.Measured? ==> shown.value == value && shown.unit == UnitOf(ConfigFor(cat, DisplayName(cat, name)))
  {
    if IsBinary(cat, name) then YesNo(DecodeFlag(value))
    else Measured(value, UnitOf(ConfigFor(cat, DisplayName(cat, name))))
  }

  /** The summary row of one entry: labelled by the feature's display name. */
  function SummaryRowFor(cat: Catalogue, name: string, value: real): (row: SummaryRow)
    ensures name in cat.labels ==> row.parameter == cat.labels[name]
    ensures name !in cat.labels ==> row.parameter == name
    ensures row.shown.YesNo? <==> IsBinary(cat, name)
  {
    SummaryRow(DisplayName(cat, name), ShowValue(cat, name, value))
  }

  /** The summary loop: one row per entry, in the dict's iteration order. */
  method SummarizeInputs(cat: Catalogue, userInputs: UserInputs) returns (inputSummary: seq<SummaryRow>)
    requires forall k :: k in userInputs.order ==> k in userInputs.values
    ensures |inputSummary| == |userInputs.order|
    ensures forall i :: 0 <= i < |inputSummary| ==>
      inputSummary[i] == SummaryRowFor(cat, userInputs.order[i], userInputs.values[userInputs.order[i]])
  {
    inputSummary := [];
    var i := 0;
    while i < |userInputs.order|
      invariant 0 <= i <= |userInputs.order|
      invariant |inputSummary| == i
      invariant forall p :: 0 <= p < i ==>
        inputSummary[p] == SummaryRowFor(cat, userInputs.order[p], userInputs.values[userInputs.order[p]])
    {
      var featureName := userInputs.order[i];
      var value := userInputs.values[featureName];
      var displayName := DisplayName(cat, featureName);
      var config := ConfigFor(cat, displayName);
      var displayValue: Shown;
      if EndsWith(featureName, "_Yes") || IsSelectConfig(config) {
        displayValue := YesNo(if value == 1.0 then "Yes" else "No");
      } else {
        displayValue := Measured(value, UnitOf(config));
      }
      inputSummary := inputSummary + [SummaryRow(displayName, displayValue)];
      i := i + 1;
    }
  }

  /** Decoding an encoded selection shows "Yes" exactly when "Yes" was selected. */
  lemma DecodeEncodeSelection(selection: string)
    ensures DecodeFlag(EncodeSelection(selection)) == "Yes" <==> selection == "Yes"
    ensures DecodeFlag(EncodeSelection(selection)) == "No" <==> selection != "Yes"
  {
  }

  /** Encoding a decoded flag gives the flag back. */
  lemma EncodeDecodeFlag(value: real)
    requires value == 0.0 || value == 1.0
    ensures EncodeSelection(DecodeFlag(value)) == value
  {
  }

  /** Round trip through the form and the summary: for a Yes/No feature the summary
      shows "Yes" iff "Yes" was selected at the feature's last occurrence. */
  lemma SummaryShowsSelection(cat: Catalogue, featureList: seq<string>, selections: seq<string>, amounts: seq<real>, j: nat)
    requires Responses(featureList, selections, amounts) && j < |featureList|
    requires forall m :: j < m < |featureList| ==> featureList[m] != featureList[j]
    requires IsBinary(cat, featureList[j])
    ensures var d := EncodeInputs(cat, featureList, selections, amounts, |featureList|);
      && featureList[j] in d.values
      && (ShowValue(cat, featureList[j], d.values[featureList[j]]) == YesNo("Yes") <==> selections[j] == "Yes")
      && (ShowValue(cat, featureList[j], d.values[featureList[j]]) == YesNo("No") <==> selections[j] != "Yes")
  {
    LastOccurrenceWins(cat, featureList, selections, amounts, |featureList|, j);
  }

  /** For a feature list without repeats the summary has one row per feature, in
      order, labelled by the display name, showing Yes/No as selected or the
      number entered with its unit. */
  lemma SummaryOfDistinctForm(cat: Catalogue, featureList: seq<string>, selections: seq<string>, amounts: seq<real>)
    requires Responses(featureList, selections, amounts) && Distinct(featureList)
    ensures var d := EncodeInputs(cat, featureList, selections, amounts, |featureList|);
      && d.order == featureList
      && forall i :: 0 <= i < |featureList| ==>
        featureList[i] in d.values &&
        SummaryRowFor(cat, featureList[i], d.values[featureList[i]]) ==
          SummaryRow(DisplayName(cat, featureList[i]),
            if IsBinary(cat, featureList[i]) then YesNo(if selections[i] == "Yes" then "Yes" else "No")
            else Measured(amounts[i], UnitOf(ConfigFor(cat, DisplayName(cat, featureList[i])))))
  {
    var n := |featureList|;
    DistinctKeepsOrder(cat, featureList, selections, amounts, n);
    assert featureList[..n] == featureList;
    forall i | 0 <= i < n
      ensures var d := EncodeInputs(cat, featureList, selections, amounts, n);
        featureList[i] in d.values
        && d.values[featureList[i]] == EncodeFeature(cat, featureList[i], selections[i], amounts[i])
    {
      LastOccurrenceWins(cat, featureList, selections, amounts, n, i);
    }
  }

  /** The display name of every feature, in feature-list order. */
  function DisplayNames(cat: Catalogue, featureList: seq<string>): (names: seq<string>)
    ensures |names| == |featureList|
  {
    seq(|featureList|, i requires 0 <= i < |featureList| => DisplayName(cat, featureList[i]))
  }

  /** The i-th name shown is the i-th feature's label, or the feature itself when it
      has none. */
  lemma DisplayNamesInOrder(cat: Catalogue, featureList: seq<string>, i: nat)
    requires i < |featureList|
    ensures featureList[i] in cat.labels ==> DisplayNames(cat, featureList)[i] == cat.labels[featureList[i]]
    ensures featureList[i] !in cat.labels ==> DisplayNames(cat, featureList)[i] == featureList[i]
  {
  }

  /** The split point is half the count rounded up: the first column gets ceil(n / 2)
      items, the second the rest, and together they are the list in order. */
  function SplitColumns(items: seq<string>): (cols: (seq<string>, seq<string>))
    ensures |cols.0| == (|items| + 1) / 2
    ensures |cols.1| <= |cols.0| <= |cols.1| + 1
    ensures cols.0 + cols.1 == items
  {
    var mid := |items| / 2 + |items| % 2;
    (items[..mid], items[mid..])
  }

  /** The two columns of the model-features panel list every feature label. */
  lemma ColumnsListEveryFeature(cat: Catalogue, featureList: seq<string>)
    ensures var cols := SplitColumns(DisplayNames(cat, featureList));
      forall i :: 0 <= i < |featureList| ==>
        if i < |cols.0| then cols.0[i] == DisplayName(cat, featureList[i])
        else cols.1[i - |cols.0|] == DisplayName(cat, featureList[i])
  {
    var names := DisplayNames(cat, featureList);
    var cols := SplitColumns(names);
    forall i | 0 <= i < |featureList|
      ensures if i < |cols.0| then cols.0[i] == DisplayName(cat, featureList[i])
        else cols.1[i - |cols.0|] == DisplayName(cat, featureList[i])
    {
      assert names[i] == (cols.0 + cols.1)[i];
    }
  }
}
