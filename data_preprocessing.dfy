/**
 * The transform callback that turns the raw complaint features into model
 * inputs: one-hot encoded categorical columns, a one-hot encoded bucketized
 * zip code, and the narrative text and the label passed through after their
 * missing values are filled in.
 *
 * The two analyzers the callback relies on (vocabulary lookup and quantile
 * bucketizing) learn their tables from the whole data set; here they are
 * parameters, fixed for a run, that map one value to an integer index.
 */
module DataPreprocessing {
  import opened Wrappers

  // ---------------------------------------------------------------------------
  // The feature tables
  // ---------------------------------------------------------------------------

  const LABEL_KEY := "consumer_disputed"

  const ZIP_CODE_KEY := "zip_code"

  /** Categorical features with their declared dimensionality, in declaration order. */
  const ONE_HOT_FEATURES: seq<(string, nat)> := [
    ("product", 11), ("sub_product", 45), ("company_response", 5), ("state", 60), ("issue", 90)
  ]

  /** Bucketized features with their bucket count. */
  const BUCKET_FEATURES: seq<(string, nat)> := [(ZIP_CODE_KEY, 10)]

  /** Free-text features (the table carries no value per feature). */
  const TEXT_FEATURES: seq<string> := ["consumer_complaint_narrative"]

  /** The output key of a feature. */
  function TransformedName(key: string): (r: string)
    ensures |r| == |key| + 3 && r[..|key|] == key && r[|key|..] == "_xf"
  {
    key + "_xf"
  }

  /** Distinct features never share an output key. */
  lemma TransformedNameInjective(a: string, b: string)
    ensures TransformedName(a) == TransformedName(b) <==> a == b
  {
    if TransformedName(a) == TransformedName(b) {
      assert a == TransformedName(a)[..|a|];
    }
  }

  // ---------------------------------------------------------------------------
  // Feature columns and fill_in_missing
  // ---------------------------------------------------------------------------

  datatype DType = StringType | Int64Type

  datatype Scalar = Str(text: string) | Int(number: int)

  predicate HasType(v: Scalar, t: DType) {
    match t
    case StringType => v.Str?
    case Int64Type => v.Int?
  }

  /**
   * One feature column over a batch of rows: a sparse column holds at most one
   * value per row (None where the row has none), a dense column one per row
   * (an `[n, 1]` tensor, which `tf.squeeze(x, axis = 1)` turns into its `n` values).
   */
  datatype Feature =
    | Sparse(dtype: DType, present: seq<Option<Scalar>>)
    | Dense(dtype: DType, values: seq<Scalar>)

  function RowCount(x: Feature): nat {
    match x
    case Sparse(_, p) => |p|
    case Dense(_, v) => |v|
  }

  /** Every value in the column has the column's type. */
  predicate WellTyped(x: Feature) {
    match x
    case Sparse(t, p) => forall i :: 0 <= i < |p| && p[i].Some? ==> HasType(p[i].value, t)
    case Dense(t, v) => forall i :: 0 <= i < |v| ==> HasType(v[i], t)
  }

  /** The fill value: the empty string for a string column, zero otherwise. */
  function DefaultValue(t: DType): (v: Scalar)
    ensures HasType(v, t)
    ensures t == StringType ==> v == Str("")
    ensures t != StringType ==> v == Int(0)
  {
    if t == StringType then Str("") else Int(0)
  }

  /** `fill_in_missing`: one value per row, the default where a sparse row has none. */
  function FillInMissing(x: Feature): (r: seq<Scalar>)
    ensures |r| == RowCount(x)
    ensures x.Sparse? ==> forall i :: 0 <= i < |r| && x.present[i].Some? ==> r[i] == x.present[i].value
    ensures x.Sparse? ==> forall i :: 0 <= i < |r| && x.present[i].None? ==> r[i] == DefaultValue(x.dtype)
    ensures x.Dense? ==> r == x.values
  {
    match x
    case Sparse(t, p) => seq(|p|, i requires 0 <= i < |p| => p[i].GetOr(DefaultValue(t)))
    case Dense(_, v) => v
  }

  /** Filling in keeps the column's type. */
  lemma FillInMissingTyped(x: Feature)
    requires WellTyped(x)
    ensures forall i :: 0 <= i < RowCount(x) ==> HasType(FillInMissing(x)[i], x.dtype)
  {
  }

  /** Filling in an already filled-in column changes nothing. */
  lemma FillInMissingIdempotent(x: Feature)
    ensures FillInMissing(Dense(x.dtype, FillInMissing(x))) == FillInMissing(x)
    ensures FillInMissing(Sparse(x.dtype, seq(RowCount(x), i requires 0 <= i < RowCount(x) => Some(FillInMissing(x)[i]))))
      == FillInMissing(x)
  {
  }

  // ---------------------------------------------------------------------------
  // convert_num_to_one_hot
  // ---------------------------------------------------------------------------

  /** `tf.one_hot` of one index: 1 at the index, 0 elsewhere; an index outside `[0, depth)` gives all zeros. */
  function OneHotRow(index: int, depth: nat): (row: seq<int>)
    ensures |row| == depth
    ensures forall j :: 0 <= j < depth ==> row[j] == if j == index then 1 else 0
  {
    seq(depth, j requires 0 <= j < depth => if j == index then 1 else 0)
  }

  /** `convert_num_to_one_hot`: one row of width `numLabels` per index. */
  function ConvertNumToOneHot(labels: seq<int>, numLabels: nat): (t: seq<seq<int>>)
    ensures |t| == |labels|
    ensures forall i :: 0 <= i < |t| ==> |t[i]| == numLabels && t[i] == OneHotRow(labels[i], numLabels)
  {
    seq(|labels|, i requires 0 <= i < |labels| => OneHotRow(labels[i], numLabels))
  }

  function Sum(s: seq<int>): int {
    if s == [] then 0 else Sum(s[..|s| - 1]) + s[|s| - 1]
  }

  /** A one-hot row holds a single 1 exactly when its index is in range, and nothing otherwise. */
  lemma {:induction false} OneHotRowSum(index: int, depth: nat)
    ensures Sum(OneHotRow(index, depth)) == if 0 <= index < depth then 1 else 0
  {
    if depth > 0 {
      OneHotRowSum(index, depth - 1);
      assert OneHotRow(index, depth)[..depth - 1] == OneHotRow(index, depth - 1);
    }
  }

  /** An in-range index gives exactly one 1, at that index; every other entry is 0. */
  lemma OneHotRowIsUnit(index: int, depth: nat)
    requires 0 <= index < depth
    ensures OneHotRow(index, depth)[index] == 1
    ensures forall j :: 0 <= j < depth && j != index ==> OneHotRow(index, depth)[j] == 0
    ensures Sum(OneHotRow(index, depth)) == 1
  {
    OneHotRowSum(index, depth);
  }

  /** An out-of-range index (such as -1 for a value outside the vocabulary) gives all zeros. */
  lemma OneHotRowOutOfRange(index: int, depth: nat)
    requires !(0 <= index < depth)
    ensures forall j :: 0 <= j < depth ==> OneHotRow(index, depth)[j] == 0
    ensures Sum(OneHotRow(index, depth)) == 0
  {
    OneHotRowSum(index, depth);
  }

  // ---------------------------------------------------------------------------
  // The analyzers
  // ---------------------------------------------------------------------------

  /**
   * What reaches the bucketizer: a string zip code goes through the zip-code
   * conversion (which this model does not interpret), anything else through
   * a cast to float.
   */
  datatype BucketInput = ZipCodeText(text: Scalar) | CastToFloat(number: Scalar)

  /**
   * The learned analyzers: the vocabulary index of a value for a feature and a
   * `top_k`, and the bucket index of a value for a feature and a bucket count.
   */
  datatype Analyzers = Analyzers(
    vocabularyIndex: (string, nat, Scalar) -> int,
    bucketIndex: (string, nat, BucketInput) -> int)

  /** A vocabulary of at most `topK` entries: index -1 (unknown) or below `topK`. */
  ghost predicate VocabularyWithin(an: Analyzers, key: string, topK: nat) {
    forall v :: -1 <= an.vocabularyIndex(key, topK, v) < topK
  }

  function VocabularyIndices(an: Analyzers, key: string, topK: nat, values: seq<Scalar>): (r: seq<int>)
    ensures |r| == |values|
    ensures forall i :: 0 <= i < |r| ==> r[i] == an.vocabularyIndex(key, topK, values[i])
  {
    seq(|values|, i requires 0 <= i < |values| => an.vocabularyIndex(key, topK, values[i]))
  }

  function BucketIndices(an: Analyzers, key: string, count: nat, values: seq<BucketInput>): (r: seq<int>)
    ensures |r| == |values|
    ensures forall i :: 0 <= i < |r| ==> r[i] == an.bucketIndex(key, count, values[i])
  {
    seq(|values|, i requires 0 <= i < |values| => an.bucketIndex(key, count, values[i]))
  }

  /** The values handed to the bucketizer, or None when a string column would have to be cast. */
  function BucketInputs(key: string, dtype: DType, dense: seq<Scalar>): (r: Option<seq<BucketInput>>)
    ensures r.None? <==> dtype == StringType && key != ZIP_CODE_KEY
    ensures r.Some? ==> |r.value| == |dense|
    ensures r.Some? && dtype == StringType ==> forall i :: 0 <= i < |dense| ==> r.value[i] == ZipCodeText(dense[i])
    ensures r.Some? && dtype != StringType ==> forall i :: 0 <= i < |dense| ==> r.value[i] == CastToFloat(dense[i])
  {
    if key == ZIP_CODE_KEY && dtype == StringType then Some(ZipCodeTexts(dense))
    else if dtype == StringType then None
    else Some(CastsToFloat(dense))
  }

  /** The column after `convert_zip_code`. */
  function ZipCodeTexts(dense: seq<Scalar>): (r: seq<BucketInput>)
    ensures |r| == |dense| && forall i :: 0 <= i < |dense| ==> r[i] == ZipCodeText(dense[i])
  {
    seq(|dense|, i requires 0 <= i < |dense| => ZipCodeText(dense[i]))
  }

  /** The column after `tf.cast(..., tf.float32)`. */
  function CastsToFloat(dense: seq<Scalar>): (r: seq<BucketInput>)
    ensures |r| == |dense| && forall i :: 0 <= i < |dense| ==> r[i] == CastToFloat(dense[i])
  {
    seq(|dense|, i requires 0 <= i < |dense| => CastToFloat(dense[i]))
  }

  // ---------------------------------------------------------------------------
  // preprocessing_fn
  // ---------------------------------------------------------------------------

  /** One assignment to the output dictionary, by feature kind. */
  datatype Step =
    | OneHotStep(key: string, dim: nat)
    | BucketStep(key: string, bucketCount: nat)
    | PassThroughStep(key: string)

  /** A transformed feature: one-hot rows, or the filled-in values themselves. */
  datatype Output = Encoded(rows: seq<seq<int>>) | Values(values: seq<Scalar>)

  datatype PreprocessError =
    | MissingFeature(key: string)   // the inputs have no such feature
    | StringCast(key: string)       // a string column cannot be cast to float

  /** The value one step stores under `TransformedName(step.key)`. */
  function StepOutput(step: Step, inputs: map<string, Feature>, an: Analyzers): (r: Result<Output, PreprocessError>)
    ensures r.Err? && r.error.MissingFeature? <==> step.key !in inputs
    ensures r.Err? && r.error.StringCast? <==>
      step.key in inputs && step.BucketStep? && step.key != ZIP_CODE_KEY && inputs[step.key].dtype == StringType
    ensures r.Err? ==> r.error.key == step.key
    ensures r.Ok? && !step.PassThroughStep? ==> r.value.Encoded? && |r.value.rows| == RowCount(inputs[step.key])
    ensures r.Ok? && step.PassThroughStep? ==> r.value == Values(FillInMissing(inputs[step.key]))
  {
    if step.key !in inputs then Err(MissingFeature(step.key))
    else
      var dense := FillInMissing(inputs[step.key]);
      match step
      case OneHotStep(key, dim) =>
        Ok(Encoded(ConvertNumToOneHot(VocabularyIndices(an, key, dim + 1, dense), dim + 1)))
      case BucketStep(key, count) =>
        (match BucketInputs(key, inputs[key].dtype, dense)
         case None => Err(StringCast(key))
         case Some(ins) => Ok(Encoded(ConvertNumToOneHot(BucketIndices(an, key, count, ins), count + 1))))
      case PassThroughStep(_) => Ok(Values(dense))
  }

  /** Runs the steps in order over the output dictionary; the first failing step ends the run. */
  function RunSteps(steps: seq<Step>, inputs: map<string, Feature>, an: Analyzers, outputs: map<string, Output>)
    : Result<map<string, Output>, PreprocessError>
    decreases |steps|
  {
    if steps == [] then Ok(outputs)
    else
      match StepOutput(steps[0], inputs, an)
      case Err(e) => Err(e)
      case Ok(v) => RunSteps(steps[1..], inputs, an, outputs[TransformedName(steps[0].key) := v])
  }

  function OneHotSteps(features: seq<(string, nat)>): (s: seq<Step>)
    ensures |s| == |features|
    ensures forall i :: 0 <= i < |s| ==> s[i] == OneHotStep(features[i].0, features[i].1)
  {
    seq(|features|, i requires 0 <= i < |features| => OneHotStep(features[i].0, features[i].1))
  }

  function BucketSteps(features: seq<(string, nat)>): (s: seq<Step>)
    ensures |s| == |features|
    ensures forall i :: 0 <= i < |s| ==> s[i] == BucketStep(features[i].0, features[i].1)
  {
    seq(|features|, i requires 0 <= i < |features| => BucketStep(features[i].0, features[i].1))
  }

  function PassThroughSteps(keys: seq<string>): (s: seq<Step>)
    ensures |s| == |keys|
    ensures forall i :: 0 <= i < |s| ==> s[i] == PassThroughStep(keys[i])
  {
    seq(|keys|, i requires 0 <= i < |keys| => PassThroughStep(keys[i]))
  }

  /** The callback's assignments in program order: one-hot, bucket, text, then the label. */
  function PreprocessingSteps(): seq<Step> {
    OneHotSteps(ONE_HOT_FEATURES) + BucketSteps(BUCKET_FEATURES)
      + PassThroughSteps(TEXT_FEATURES) + [PassThroughStep(LABEL_KEY)]
  }

  /** What `preprocessing_fn` returns for `inputs`. */
  function Preprocess(inputs: map<string, Feature>, an: Analyzers): Result<map<string, Output>, PreprocessError> {
    RunSteps(PreprocessingSteps(), inputs, an, map[])
  }

  /** Where each table's steps sit in the program order. */
  lemma PreprocessingStepsAt()
    ensures |PreprocessingSteps()| == |ONE_HOT_FEATURES| + |BUCKET_FEATURES| + |TEXT_FEATURES| + 1
    ensures forall i :: 0 <= i < |ONE_HOT_FEATURES| ==>
      PreprocessingSteps()[i] == OneHotStep(ONE_HOT_FEATURES[i].0, ONE_HOT_FEATURES[i].1)
    ensures forall i :: 0 <= i < |BUCKET_FEATURES| ==>
      PreprocessingSteps()[|ONE_HOT_FEATURES| + i] == BucketStep(BUCKET_FEATURES[i].0, BUCKET_FEATURES[i].1)
    ensures forall i :: 0 <= i < |TEXT_FEATURES| ==>
      PreprocessingSteps()[|ONE_HOT_FEATURES| + |BUCKET_FEATURES| + i] == PassThroughStep(TEXT_FEATURES[i])
    ensures PreprocessingSteps()[|ONE_HOT_FEATURES| + |BUCKET_FEATURES| + |TEXT_FEATURES|] == PassThroughStep(LABEL_KEY)
  {
  }

  /** One pass of a loop below: the step at the head is done and the rest remains. */
  lemma RunStepsHead(steps: seq<Step>, i: nat, inputs: map<string, Feature>, an: Analyzers, outputs: map<string, Output>)
    requires i < |steps|
    ensures RunSteps(steps[i..], inputs, an, outputs) ==
      match StepOutput(steps[i], inputs, an)
      case Err(e) => Err(e)
      case Ok(v) => RunSteps(steps[i + 1..], inputs, an, outputs[TransformedName(steps[i].key) := v])
  {
    assert steps[i..][0] == steps[i];
    assert steps[i..][1..] == steps[i + 1..];
  }

  /** Continues a run that has not failed with further steps. */
  function ThenRun(r: Result<map<string, Output>, PreprocessError>, steps: seq<Step>, inputs: map<string, Feature>,
      an: Analyzers): Result<map<string, Output>, PreprocessError>
  {
    match r
    case Err(e) => Err(e)
    case Ok(o) => RunSteps(steps, inputs, an, o)
  }

  /** Running two lists of steps one after the other is running their concatenation. */
  lemma {:induction false} RunStepsAppend(a: seq<Step>, b: seq<Step>, inputs: map<string, Feature>, an: Analyzers,
      outputs: map<string, Output>)
    ensures RunSteps(a + b, inputs, an, outputs) == ThenRun(RunSteps(a, inputs, an, outputs), b, inputs, an)
    decreases |a|
  {
    if a == [] {
      assert a + b == b;
    } else {
      assert (a + b)[0] == a[0];
      assert (a + b)[1..] == a[1..] + b;
      match StepOutput(a[0], inputs, an)
      case Err(_) =>
      case Ok(v) => RunStepsAppend(a[1..], b, inputs, an, outputs[TransformedName(a[0].key) := v]);
    }
  }

  /** The callback's run, table by table. */
  lemma PreprocessByTable(inputs: map<string, Feature>, an: Analyzers)
    ensures Preprocess(inputs, an) ==
      ThenRun(ThenRun(ThenRun(RunSteps(OneHotSteps(ONE_HOT_FEATURES), inputs, an, map[]),
        BucketSteps(BUCKET_FEATURES), inputs, an),
        PassThroughSteps(TEXT_FEATURES), inputs, an),
        [PassThroughStep(LABEL_KEY)], inputs, an)
  {
    var a := OneHotSteps(ONE_HOT_FEATURES);
    var b := BucketSteps(BUCKET_FEATURES);
    var c := PassThroughSteps(TEXT_FEATURES);
    RunStepsAppend(a + b + c, [PassThroughStep(LABEL_KEY)], inputs, an, map[]);
    RunStepsAppend(a + b, c, inputs, an, map[]);
    RunStepsAppend(a, b, inputs, an, map[]);
  }

  /** The step at position `i` of a one-hot table run, in the terms of the loop body. */
  lemma OneHotHead(features: seq<(string, nat)>, i: nat, inputs: map<string, Feature>, an: Analyzers,
      outputs: map<string, Output>)
    requires i < |features|
    ensures var step := OneHotStep(features[i].0, features[i].1);
      RunSteps(OneHotSteps(features)[i..], inputs, an, outputs) ==
        match StepOutput(step, inputs, an)
        case Err(e) => Err(e)
        case Ok(v) => RunSteps(OneHotSteps(features)[i + 1..], inputs, an, outputs[TransformedName(step.key) := v])
  {
    RunStepsHead(OneHotSteps(features), i, inputs, an, outputs);
  }

  /** The step at position `i` of a bucket table run, in the terms of the loop body. */
  lemma BucketHead(features: seq<(string, nat)>, i: nat, inputs: map<string, Feature>, an: Analyzers,
      outputs: map<string, Output>)
    requires i < |features|
    ensures var step := BucketStep(features[i].0, features[i].1);
      RunSteps(BucketSteps(features)[i..], inputs, an, outputs) ==
        match StepOutput(step, inputs, an)
        case Err(e) => Err(e)
        case Ok(v) => RunSteps(BucketSteps(features)[i + 1..], inputs, an, outputs[TransformedName(step.key) := v])
  {
    RunStepsHead(BucketSteps(features), i, inputs, an, outputs);
  }

  /** The step at position `i` of a pass-through run, in the terms of the loop body. */
  lemma PassThroughHead(steps: seq<Step>, i: nat, inputs: map<string, Feature>, an: Analyzers,
      outputs: map<string, Output>)
    requires i < |steps| && steps[i].PassThroughStep?
    ensures RunSteps(steps[i..], inputs, an, outputs) ==
      if steps[i].key !in inputs then Err(MissingFeature(steps[i].key))
      else RunSteps(steps[i + 1..], inputs, an, outputs[TransformedName(steps[i].key) :=
        Values(FillInMissing(inputs[steps[i].key]))])
  {
    RunStepsHead(steps, i, inputs, an, outputs);
  }

  /** One pass of the one-hot loop: vocabulary lookup with `top_k = dim + 1`, then one-hot encoding of width `dim + 1`. */
  method OneHotEncodeFeature(key: string, dim: nat, inputs: map<string, Feature>, an: Analyzers)
    returns (r: Result<Output, PreprocessError>)
    ensures r == StepOutput(OneHotStep(key, dim), inputs, an)
  {
    if key !in inputs {
      return Err(MissingFeature(key));
    }
    var intValue := VocabularyIndices(an, key, dim + 1, FillInMissing(inputs[key]));
    return Ok(Encoded(ConvertNumToOneHot(intValue, dim + 1)));
  }

  /** The one-hot loop of `preprocessing_fn`. */
  method OneHotLoop(features: seq<(string, nat)>, inputs: map<string, Feature>, an: Analyzers, outputs0: map<string, Output>)
    returns (r: Result<map<string, Output>, PreprocessError>)
    ensures r == RunSteps(OneHotSteps(features), inputs, an, outputs0)
  {
    ghost var steps := OneHotSteps(features);
    ghost var goal := RunSteps(steps, inputs, an, outputs0);
    assert steps[0..] == steps;
    var outputs := outputs0;
    for i := 0 to |features|
      invariant goal == RunSteps(steps[i..], inputs, an, outputs)
    {
      var (key, dim) := features[i];
      OneHotHead(features, i, inputs, an, outputs);
      var encoded := OneHotEncodeFeature(key, dim, inputs, an);
      if encoded.Err? {
        return Err(encoded.error);
      }
      outputs := outputs[TransformedName(key) := encoded.value];
    }
    assert steps[|features|..] == [];
    return Ok(outputs);
  }

  /** One pass of the bucket loop: conversion or cast, bucketizing, and one-hot encoding with one extra slot. */
  method BucketizeFeature(key: string, bucketCount: nat, inputs: map<string, Feature>, an: Analyzers)
    returns (r: Result<Output, PreprocessError>)
    ensures r == StepOutput(BucketStep(key, bucketCount), inputs, an)
  {
    if key !in inputs {
      return Err(MissingFeature(key));
    }
    var denseFeature := FillInMissing(inputs[key]);
    var bucketInput: seq<BucketInput>;
    if key == ZIP_CODE_KEY && inputs[key].dtype == StringType {
      bucketInput := ZipCodeTexts(denseFeature);
    } else if inputs[key].dtype == StringType {
      return Err(StringCast(key));
    } else {
      bucketInput := CastsToFloat(denseFeature);
    }
    var tempFeature := BucketIndices(an, key, bucketCount, bucketInput);
    return Ok(Encoded(ConvertNumToOneHot(tempFeature, bucketCount + 1)));
  }

  /** The bucket loop of `preprocessing_fn`. */
  method BucketLoop(features: seq<(string, nat)>, inputs: map<string, Feature>, an: Analyzers, outputs0: map<string, Output>)
    returns (r: Result<map<string, Output>, PreprocessError>)
    ensures r == RunSteps(BucketSteps(features), inputs, an, outputs0)
  {
    ghost var steps := BucketSteps(features);
    ghost var goal := RunSteps(steps, inputs, an, outputs0);
    assert steps[0..] == steps;
    var outputs := outputs0;
    for i := 0 to |features|
      invariant goal == RunSteps(steps[i..], inputs, an, outputs)
    {
      var (key, bucketCount) := features[i];
      BucketHead(features, i, inputs, an, outputs);
      var encoded := BucketizeFeature(key, bucketCount, inputs, an);
      if encoded.Err? {
        return Err(encoded.error);
      }
      outputs := outputs[TransformedName(key) := encoded.value];
    }
    assert steps[|features|..] == [];
    return Ok(outputs);
  }

  /** The text loop of `preprocessing_fn`: each text feature is stored filled in. */
  method TextLoop(keys: seq<string>, inputs: map<string, Feature>, an: Analyzers, outputs0: map<string, Output>)
    returns (r: Result<map<string, Output>, PreprocessError>)
    ensures r == RunSteps(PassThroughSteps(keys), inputs, an, outputs0)
  {
    ghost var steps := PassThroughSteps(keys);
    ghost var goal := RunSteps(steps, inputs, an, outputs0);
    assert steps[0..] == steps;
    var outputs := outputs0;
    for i := 0 to |keys|
      invariant goal == RunSteps(steps[i..], inputs, an, outputs)
    {
      var key := keys[i];
      PassThroughHead(steps, i, inputs, an, outputs);
      if key !in inputs {
        return Err(MissingFeature(key));
      }
      outputs := outputs[TransformedName(key) := Values(FillInMissing(inputs[key]))];
    }
    assert steps[|keys|..] == [];
    return Ok(outputs);
  }

  /** `preprocessing_fn`: the three loops over the tables, then the label. */
  method PreprocessingFn(inputs: map<string, Feature>, an: Analyzers) returns (r: Result<map<string, Output>, PreprocessError>)
    ensures r == Preprocess(inputs, an)
  {
    PreprocessByTable(inputs, an);
    var outputs := map[];
    r := OneHotLoop(ONE_HOT_FEATURES, inputs, an, outputs);
    if r.Err? {
      return;
    }
    r := BucketLoop(BUCKET_FEATURES, inputs, an, r.value);
    if r.Err? {
      return;
    }
    r := TextLoop(TEXT_FEATURES, inputs, an, r.value);
    if r.Err? {
      return;
    }
    outputs := r.value;
    ghost var labelStep := [PassThroughStep(LABEL_KEY)];
    PassThroughHead(labelStep, 0, inputs, an, outputs);
    assert labelStep[0..] == labelStep && labelStep[1..] == [];
    if LABEL_KEY !in inputs {
      return Err(MissingFeature(LABEL_KEY));
    }
    outputs := outputs[TransformedName(LABEL_KEY) := Values(FillInMissing(inputs[LABEL_KEY]))];
    return Ok(outputs);
  }

  // ---------------------------------------------------------------------------
  // What the output dictionary holds
  // ---------------------------------------------------------------------------

  /** The position of the first step that fails, or the number of steps when none does. */
  function FirstFailing(steps: seq<Step>, inputs: map<string, Feature>, an: Analyzers): (k: nat)
    ensures k <= |steps|
    ensures forall j :: 0 <= j < k ==> StepOutput(steps[j], inputs, an).Ok?
    ensures k < |steps| ==> StepOutput(steps[k], inputs, an).Err?
    decreases |steps|
  {
    if steps == [] then 0
    else if StepOutput(steps[0], inputs, an).Err? then 0
    else
      assert forall j :: 1 <= j < |steps| ==> steps[1..][j - 1] == steps[j];
      1 + FirstFailing(steps[1..], inputs, an)
  }

  /** A run succeeds exactly when no step fails, and otherwise reports the first failing step's error. */
  lemma {:induction false} RunStepsOutcome(steps: seq<Step>, inputs: map<string, Feature>, an: Analyzers, outputs: map<string, Output>)
    ensures var k := FirstFailing(steps, inputs, an);
      && (RunSteps(steps, inputs, an, outputs).Ok? <==> k == |steps|)
      && (k < |steps| ==> RunSteps(steps, inputs, an, outputs) == Err(StepOutput(steps[k], inputs, an).error))
    decreases |steps|
  {
    if steps != [] && StepOutput(steps[0], inputs, an).Ok? {
      var v := StepOutput(steps[0], inputs, an).value;
      RunStepsOutcome(steps[1..], inputs, an, outputs[TransformedName(steps[0].key) := v]);
      var k := FirstFailing(steps[1..], inputs, an);
      if k < |steps[1..]| {
        assert steps[1..][k] == steps[k + 1];
      }
    }
  }

  /** A successful run adds one key per step to the dictionary it started from. */
  lemma {:induction false} RunStepsKeys(steps: seq<Step>, inputs: map<string, Feature>, an: Analyzers, outputs: map<string, Output>)
    requires RunSteps(steps, inputs, an, outputs).Ok?
    ensures RunSteps(steps, inputs, an, outputs).value.Keys ==
      outputs.Keys + set i | 0 <= i < |steps| :: TransformedName(steps[i].key)
    decreases |steps|
  {
    if steps != [] {
      var v := StepOutput(steps[0], inputs, an).value;
      var rest := outputs[TransformedName(steps[0].key) := v];
      RunStepsKeys(steps[1..], inputs, an, rest);
      assert (set i | 0 <= i < |steps| :: TransformedName(steps[i].key)) ==
        {TransformedName(steps[0].key)} + set i | 0 <= i < |steps[1..]| :: TransformedName(steps[1..][i].key)
      by {
        assert forall i :: 1 <= i < |steps| ==> steps[i] == steps[1..][i - 1];
      }
    }
  }

  /** The steps read distinct input features. */
  ghost predicate DistinctKeys(steps: seq<Step>) {
    forall i, j :: 0 <= i < j < |steps| ==> steps[i].key != steps[j].key
  }

  /** With distinct features, each step's value is what ends up under its output key. */
  lemma {:induction false} RunStepsValues(steps: seq<Step>, inputs: map<string, Feature>, an: Analyzers, outputs: map<string, Output>)
    requires DistinctKeys(steps)
    requires RunSteps(steps, inputs, an, outputs).Ok?
    ensures forall i :: 0 <= i < |steps| ==>
      && TransformedName(steps[i].key) in RunSteps(steps, inputs, an, outputs).value
      && StepOutput(steps[i], inputs, an) == Ok(RunSteps(steps, inputs, an, outputs).value[TransformedName(steps[i].key)])
    decreases |steps|
  {
    if steps != [] {
      var v := StepOutput(steps[0], inputs, an).value;
      var rest := outputs[TransformedName(steps[0].key) := v];
      var tail := steps[1..];
      assert DistinctKeys(tail) by {
        forall i, j | 0 <= i < j < |tail| ensures tail[i].key != tail[j].key {
          assert tail[i] == steps[i + 1] && tail[j] == steps[j + 1];
        }
      }
      RunStepsValues(tail, inputs, an, rest);
      var result := RunSteps(steps, inputs, an, outputs).value;
      assert result == RunSteps(tail, inputs, an, rest).value;
      forall i | 0 <= i < |steps|
        ensures TransformedName(steps[i].key) in result
        ensures StepOutput(steps[i], inputs, an) == Ok(result[TransformedName(steps[i].key)])
      {
        if i == 0 {
          RunStepsKeysUntouched(tail, inputs, an, rest, steps[0].key);
        } else {
          assert steps[i] == tail[i - 1];
        }
      }
    }
  }

  /** A key that no step writes keeps its value. */
  lemma {:induction false} RunStepsKeysUntouched(steps: seq<Step>, inputs: map<string, Feature>, an: Analyzers,
      outputs: map<string, Output>, key: string)
    requires RunSteps(steps, inputs, an, outputs).Ok?
    requires TransformedName(key) in outputs
    requires forall i :: 0 <= i < |steps| ==> steps[i].key != key
    ensures TransformedName(key) in RunSteps(steps, inputs, an, outputs).value
    ensures RunSteps(steps, inputs, an, outputs).value[TransformedName(key)] == outputs[TransformedName(key)]
    decreases |steps|
  {
    if steps != [] {
      var v := StepOutput(steps[0], inputs, an).value;
      TransformedNameInjective(steps[0].key, key);
      assert forall i :: 0 <= i < |steps[1..]| ==> steps[1..][i] == steps[i + 1];
      RunStepsKeysUntouched(steps[1..], inputs, an, outputs[TransformedName(steps[0].key) := v], key);
    }
  }

  /** The features the callback reads, in the order it reads them. */
  const FEATURE_KEYS: seq<string> := [
    "product", "sub_product", "company_response", "state", "issue",
    "zip_code", "consumer_complaint_narrative", "consumer_disputed"]

  /** The steps read exactly `FEATURE_KEYS`, in that order. */
  lemma PreprocessingInputKeys()
    ensures |PreprocessingSteps()| == |FEATURE_KEYS|
    ensures forall i :: 0 <= i < |FEATURE_KEYS| ==> PreprocessingSteps()[i].key == FEATURE_KEYS[i]
  {
    PreprocessingStepsAt();
  }

  /** No feature appears in two tables or twice in one. */
  lemma PreprocessingKeysDistinct()
    ensures DistinctKeys(PreprocessingSteps())
  {
    PreprocessingInputKeys();
    var names := FEATURE_KEYS;
    for i := 0 to 8
      invariant forall a, b :: 0 <= a < b < i ==> names[a] != names[b]
    {
      assert names[i] !in names[..i];
      assert forall a :: 0 <= a < i ==> names[a] in names[..i];
    }
  }

  /** The output keys, in the order the callback assigns them. */
  const OUTPUT_KEYS: seq<string> := [
    "product_xf", "sub_product_xf", "company_response_xf", "state_xf", "issue_xf",
    "zip_code_xf", "consumer_complaint_narrative_xf", "consumer_disputed_xf"]

  /** The i-th output key is the transformed name of the i-th feature read. */
  lemma OutputKeyAt(i: nat)
    requires i < |FEATURE_KEYS|
    ensures TransformedName(FEATURE_KEYS[i]) == OUTPUT_KEYS[i]
  {
    var key := FEATURE_KEYS[i];
    if i == 0 { assert key + "_xf" == "product_xf"; }
    else if i == 1 { assert key + "_xf" == "sub_product_xf"; }
    else if i == 2 { assert key + "_xf" == "company_response_xf"; }
    else if i == 3 { assert key + "_xf" == "state_xf"; }
    else if i == 4 { assert key + "_xf" == "issue_xf"; }
    else if i == 5 { assert key + "_xf" == "zip_code_xf"; }
    else if i == 6 { assert key + "_xf" == "consumer_complaint_narrative_xf"; }
    else { assert key + "_xf" == "consumer_disputed_xf"; }
  }

  /** The output keys are the eight transformed names. */
  lemma PreprocessOutputKeys(inputs: map<string, Feature>, an: Analyzers)
    requires Preprocess(inputs, an).Ok?
    ensures Preprocess(inputs, an).value.Keys == set k | k in OUTPUT_KEYS
  {
    var steps := PreprocessingSteps();
    RunStepsKeys(steps, inputs, an, map[]);
    PreprocessingInputKeys();
    forall i | 0 <= i < 8 ensures TransformedName(steps[i].key) == OUTPUT_KEYS[i] {
      OutputKeyAt(i);
    }
    assert (set i | 0 <= i < |steps| :: TransformedName(steps[i].key)) == set k | k in OUTPUT_KEYS by {
      forall k | k in OUTPUT_KEYS ensures k in set i | 0 <= i < |steps| :: TransformedName(steps[i].key) {
        var i :| 0 <= i < 8 && OUTPUT_KEYS[i] == k;
        assert TransformedName(steps[i].key) == k;
      }
    }
  }

  /** There are eight output keys: the transformed names are pairwise distinct. */
  lemma OutputKeyCount()
    ensures |set k | k in OUTPUT_KEYS| == 8
  {
    var keys: set<string> := {};
    for i := 0 to 8
      invariant keys == set n | n in OUTPUT_KEYS[..i]
      invariant |keys| == i
    {
      assert OUTPUT_KEYS[i] !in OUTPUT_KEYS[..i];
      assert OUTPUT_KEYS[..i + 1] == OUTPUT_KEYS[..i] + [OUTPUT_KEYS[i]];
      keys := keys + {OUTPUT_KEYS[i]};
    }
    assert OUTPUT_KEYS[..8] == OUTPUT_KEYS;
  }

  /** The callback fails exactly when an input feature it reads is missing, and names the first one. */
  lemma PreprocessFailure(inputs: map<string, Feature>, an: Analyzers)
    ensures var steps := PreprocessingSteps();
      var k := FirstFailing(steps, inputs, an);
      && (Preprocess(inputs, an).Err? <==> exists i :: 0 <= i < |steps| && steps[i].key !in inputs)
      && (Preprocess(inputs, an).Err? ==>
            && k < |steps| && steps[k].key !in inputs
            && Preprocess(inputs, an) == Err(MissingFeature(steps[k].key))
            && forall j :: 0 <= j < k ==> steps[j].key in inputs)
  {
    RunStepsOutcome(PreprocessingSteps(), inputs, an, map[]);
    OnlyMissingFeaturesFail(inputs, an);
  }

  /** The only bucketized feature is the zip code, so no step can meet the string-cast error. */
  lemma OnlyMissingFeaturesFail(inputs: map<string, Feature>, an: Analyzers)
    ensures forall i :: 0 <= i < |PreprocessingSteps()| ==>
      (StepOutput(PreprocessingSteps()[i], inputs, an).Err? <==> PreprocessingSteps()[i].key !in inputs)
  {
    PreprocessingStepsAt();
    forall i | 0 <= i < |PreprocessingSteps()|
      ensures StepOutput(PreprocessingSteps()[i], inputs, an).Err? <==> PreprocessingSteps()[i].key !in inputs
    {
      if PreprocessingSteps()[i].BucketStep? {
        assert i == |ONE_HOT_FEATURES|;
      }
    }
  }

  /** Every step's value is stored under its output key. */
  lemma PreprocessValues(inputs: map<string, Feature>, an: Analyzers)
    requires Preprocess(inputs, an).Ok?
    ensures forall i :: 0 <= i < |PreprocessingSteps()| ==>
      && TransformedName(PreprocessingSteps()[i].key) in Preprocess(inputs, an).value
      && StepOutput(PreprocessingSteps()[i], inputs, an) ==
         Ok(Preprocess(inputs, an).value[TransformedName(PreprocessingSteps()[i].key)])
  {
    PreprocessingKeysDistinct();
    RunStepsValues(PreprocessingSteps(), inputs, an, map[]);
  }

  /** A one-hot feature of dimension `dim` is looked up with `top_k = dim + 1` and encoded in rows of width `dim + 1`. */
  lemma PreprocessOneHotOutputs(inputs: map<string, Feature>, an: Analyzers)
    requires Preprocess(inputs, an).Ok?
    ensures forall i :: 0 <= i < |ONE_HOT_FEATURES| ==>
      var (key, dim) := ONE_HOT_FEATURES[i];
      && key in inputs && TransformedName(key) in Preprocess(inputs, an).value
      && Preprocess(inputs, an).value[TransformedName(key)] ==
         Encoded(ConvertNumToOneHot(VocabularyIndices(an, key, dim + 1, FillInMissing(inputs[key])), dim + 1))
  {
    PreprocessValues(inputs, an);
    PreprocessingStepsAt();
  }

  /** The zip code is bucketized into 10 buckets and encoded in rows of width 11. */
  lemma PreprocessBucketOutput(inputs: map<string, Feature>, an: Analyzers)
    requires Preprocess(inputs, an).Ok?
    ensures ZIP_CODE_KEY in inputs && TransformedName(ZIP_CODE_KEY) in Preprocess(inputs, an).value
    ensures var dense := FillInMissing(inputs[ZIP_CODE_KEY]);
      Preprocess(inputs, an).value[TransformedName(ZIP_CODE_KEY)] ==
        Encoded(ConvertNumToOneHot(BucketIndices(an, ZIP_CODE_KEY, 10,
          BucketInputs(ZIP_CODE_KEY, inputs[ZIP_CODE_KEY].dtype, dense).value), 11))
  {
    PreprocessValues(inputs, an);
    PreprocessingStepsAt();
    assert PreprocessingSteps()[5] == BucketStep(ZIP_CODE_KEY, 10);
  }

  /** The text feature and the label are the filled-in values, not one-hot encoded. */
  lemma PreprocessPassThroughOutputs(inputs: map<string, Feature>, an: Analyzers)
    requires Preprocess(inputs, an).Ok?
    ensures forall key :: key in TEXT_FEATURES || key == LABEL_KEY ==>
      && key in inputs && TransformedName(key) in Preprocess(inputs, an).value
      && Preprocess(inputs, an).value[TransformedName(key)] == Values(FillInMissing(inputs[key]))
  {
    PreprocessValues(inputs, an);
    PreprocessingStepsAt();
    assert PreprocessingSteps()[6] == PassThroughStep(TEXT_FEATURES[0]);
    assert PreprocessingSteps()[7] == PassThroughStep(LABEL_KEY);
  }

  /**
   * With a vocabulary that honours its `top_k`, every row of a one-hot feature
   * is a unit vector for a known value and all zeros for an unknown one (-1).
   */
  lemma OneHotFeatureRows(key: string, dim: nat, inputs: map<string, Feature>, an: Analyzers)
    requires VocabularyWithin(an, key, dim + 1)
    requires StepOutput(OneHotStep(key, dim), inputs, an).Ok?
    ensures var rows := StepOutput(OneHotStep(key, dim), inputs, an).value.rows;
      forall i :: 0 <= i < |rows| ==>
        && |rows[i]| == dim + 1
        && Sum(rows[i]) == if an.vocabularyIndex(key, dim + 1, FillInMissing(inputs[key])[i]) == -1 then 0 else 1
  {
    var dense := FillInMissing(inputs[key]);
    var rows := StepOutput(OneHotStep(key, dim), inputs, an).value.rows;
    forall i | 0 <= i < |rows|
      ensures Sum(rows[i]) == if an.vocabularyIndex(key, dim + 1, dense[i]) == -1 then 0 else 1
    {
      OneHotRowSum(an.vocabularyIndex(key, dim + 1, dense[i]), dim + 1);
    }
  }

  /**
   * Every row of a bucketized feature has width `count + 1`; it is a unit vector
   * when the bucket index fits that width (any of `0 .. count`) and all zeros otherwise.
   */
  lemma BucketFeatureRows(key: string, count: nat, inputs: map<string, Feature>, an: Analyzers)
    requires StepOutput(BucketStep(key, count), inputs, an).Ok?
    ensures var ins := BucketInputs(key, inputs[key].dtype, FillInMissing(inputs[key])).value;
      var rows := StepOutput(BucketStep(key, count), inputs, an).value.rows;
      |rows| == |ins| &&
      forall i :: 0 <= i < |rows| ==>
        && |rows[i]| == count + 1
        && Sum(rows[i]) == if 0 <= an.bucketIndex(key, count, ins[i]) <= count then 1 else 0
  {
    var dense := FillInMissing(inputs[key]);
    var ins := BucketInputs(key, inputs[key].dtype, dense).value;
    var rows := StepOutput(BucketStep(key, count), inputs, an).value.rows;
    forall i | 0 <= i < |rows|
      ensures Sum(rows[i]) == if 0 <= an.bucketIndex(key, count, ins[i]) <= count then 1 else 0
    {
      OneHotRowSum(an.bucketIndex(key, count, ins[i]), count + 1);
    }
  }
}
