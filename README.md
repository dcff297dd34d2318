# Consumer-complaint ingestion and feature layout, in Dafny

This project models the two pieces of project-local logic in the consumer-complaint
practice pipeline and proves properties of them.

**Ingestion** (`data_ingestion.dfy`, with `decimal.dfy` for decimal text):
- Raw CSV rows are cleaned. An empty `zip_code` becomes the sentinel `"99999"`, rewritten in place
  on the row object.
- A zip code is converted to an integer. Every non-overlapping `"XX"`, scanning left to right,
  becomes `"00"`, and the text is then read as a decimal number.
- Each cleaned row becomes an eleven-field record: the zip code as a 64-bit integer, the other
  ten fields as copied strings.
- The writer loop turns rows into records in order and stops at the first row that raises.

**Feature layout** (`data_preprocessing.dfy`):
- The transform callback reads the static feature tables: five one-hot features with their
  dimension, one bucketized feature (the zip code, 10 buckets), one text feature and the label.
- Output keys are `<feature>_xf`.
- `fill_in_missing` fills a sparse column with `""` or `0`.
- `convert_num_to_one_hot` builds one-hot rows.
- The vocabulary and bucketizing analyzers are parameters: per-feature functions from a value to an
  integer index.
- The callback itself is a method. It runs the source's three loops, each a method over its
  table, then makes the final label assignment. The bodies of the one-hot and bucket loops are
  methods of their own. The callback is proved equal to a fold over a list of steps, and the key
  set, widths and failure cases are proved about that fold.

Errors that Python raises in the modelled code become `Err` values:
- a missing row column (`KeyError`) becomes `MissingField`;
- text that `int()` rejects becomes `InvalidLiteral`;
- an integer outside the int64 range of `Int64List` becomes `Int64OutOfRange`;
- a missing input feature becomes `MissingFeature`;
- a string column reaching `tf.cast(..., tf.float32)` becomes `StringCast`.

In every case the first failure in evaluation order is the one reported. The zip-code conversion
of the transform callback is not modelled and is taken never to raise (see "## Left out").

## Model

| member | source | states |
|---|---|---|
| DataIngestion.Cleaned | practice_example/data_ingestion.py:37-40 | fails exactly when the row has no `zip_code` column; otherwise the key set is unchanged, an empty zip becomes `"99999"`, a non-empty zip leaves the row identical, every other field is unchanged and the zip is never empty afterwards |
| DataIngestion.CleanedIdempotent | practice_example/data_ingestion.py:37-40 | cleaning a cleaned row gives the same row |
| DataIngestion.CleanRows | practice_example/data_ingestion.py:37-40 | rewrites the row object in place to the cleaned dictionary and returns that same object; on a missing column the row is untouched |
| DataIngestion.ReplaceXX | practice_example/data_ingestion.py:44 | `str.replace("XX", "00")` preserves the length |
| DataIngestion.ContainsXX | practice_example/data_ingestion.py:43 | the test `"XX" in zipcode`: some position starts a pair of `'X'` (a definition with no contract; it is the partner of `ReplaceXX` in `ReplaceXXIdentity` and `ReplaceXXLeavesNoPair`) |
| DataIngestion.ReplaceXXFirst | practice_example/data_ingestion.py:44 | replacement starts at the leftmost `"XX"`: the text before it is kept, the pair becomes `"00"`, and the scan resumes after the pair |
| DataIngestion.ReplaceXXEvenRun | practice_example/data_ingestion.py:44 | `"XXXX"` becomes `"0000"`, not `"00X0"` |
| DataIngestion.ReplaceXXHead | practice_example/data_ingestion.py:44 | the first character becomes `'0'` exactly when a pair starts the string |
| DataIngestion.ReplaceXXPointwise | practice_example/data_ingestion.py:44 | every character is kept, or is an `'X'` turned into `'0'` |
| DataIngestion.ReplaceXXLeavesNoPair | practice_example/data_ingestion.py:44 | no `"XX"` remains after replacement |
| DataIngestion.ReplaceXXIdentity | practice_example/data_ingestion.py:43-44 | replacement is a no-op if and only if the text holds no `"XX"`, so for a string zip code the guard on line 43 does not change the result |
| DataIngestion.ReplaceXXDigitsThenMask | practice_example/data_ingestion.py:44 | digits followed by `"XX"` become the same digits followed by `"00"` |
| DataIngestion.ConvertZipcodeToInt | practice_example/data_ingestion.py:42-46 | succeeds if and only if the replaced text is a non-empty digit string; the value is then its non-negative decimal value; otherwise the error carries the rejected text |
| DataIngestion.ConvertDigits | practice_example/data_ingestion.py:45-46 | a digit string parses to its decimal value |
| DataIngestion.ConvertUnmasked | practice_example/data_ingestion.py:43-45 | without `"XX"` the text is parsed as it is |
| DataIngestion.ConvertLeftoverXFails | practice_example/data_ingestion.py:43-45 | an `'X'` surviving replacement makes the conversion fail |
| DataIngestion.ConvertMaskedSuffix | practice_example/data_ingestion.py:43-45 | a digit prefix followed by `"XX"` reads as 100 times the prefix |
| DataIngestion.ConvertMaskedExample | practice_example/data_ingestion.py:43-45 | `"123XX"` converts to 12300 |
| DataIngestion.ConvertSentinel | practice_example/data_ingestion.py:39-45 | the sentinel `"99999"` converts to 99999 |
| DataIngestion.ConvertOddMaskFails | practice_example/data_ingestion.py:43-45 | `"XXXXX"` becomes `"0000X"` and is rejected |
| DataIngestion.ConvertLoneXFails | practice_example/data_ingestion.py:43-45 | `"1234X"` is left unchanged and rejected |
| DataIngestion.FieldFeature | practice_example/data_ingestion.py:59-69 | a non-zip field is the row's string copied; the zip field is the int64 feature of the converted zip; fails exactly when the column is missing, the zip does not parse, or the zip is out of int64 range; the error is `MissingField` of the missing column, the rejected text of the zip, or `Int64OutOfRange` of its value |
| DataIngestion.BuildFeatures | practice_example/data_ingestion.py:58-70 | succeeds if and only if every field succeeds; the keys are exactly the field names and each value is that field's feature; otherwise the error is the first failing field's error, all earlier fields succeeding |
| DataIngestion.RecordKeyCount | practice_example/data_ingestion.py:58-70 | the eleven names are distinct, so a record has eleven keys |
| DataIngestion.RecordLayout | practice_example/data_ingestion.py:58-70 | a written record has exactly the eleven keys; the ten non-zip fields are the row's strings unchanged and `zip_code` is the int64 feature of `convert_zipcode_to_int` of the row's zip |
| DataIngestion.ToRecord | practice_example/data_ingestion.py:58-70 | a record built from a row means the row has every column, and its keys are exactly the eleven field names |
| DataIngestion.RowRecord | practice_example/data_ingestion.py:57-70 | one pass of the writer loop: a row without `zip_code` raises `MissingField("zip_code")`; an empty zip is recorded as if it were `"99999"`; any other row is recorded as it is |
| DataIngestion.RecordSucceeds | practice_example/data_ingestion.py:58-70 | a record is built if and only if every column is present and the zip converts to a value in int64 range |
| DataIngestion.EmptyZipWrittenAsSentinel | practice_example/data_ingestion.py:57-66 | a complete row with an empty zip is written with `zip_code` = 99999 |
| DataIngestion.TfrecordDataWriter | practice_example/data_ingestion.py:56-71 | writes, in order, the record of every row before the first failing row; reports no failure if and only if every row was written, and otherwise the failing row's error |
| Decimal.DigitValue | practice_example/data_ingestion.py:45 | a digit's value is below 10 |
| Decimal.DecimalValue | practice_example/data_ingestion.py:45 | the value of an n-digit string is below 10^n |
| Decimal.ParseInt | practice_example/data_ingestion.py:45 | `int()` is defined exactly on non-empty ASCII digit strings |
| Decimal.DecimalString | practice_example/data_ingestion.py:45 | printing a number gives a non-empty digit string |
| Decimal.ParseDecimalString | practice_example/data_ingestion.py:45 | parsing the printed number gives the number back |
| Decimal.DecimalValueAppend | practice_example/data_ingestion.py:45 | the value of `s + t` is the value of `s` shifted by `len(t)` digits plus the value of `t` |
| Decimal.LeadingZero | practice_example/data_ingestion.py:45 | a leading `'0'` does not change the value |
| DataPreprocessing.TransformedName | practice_example/data_preprocessing.py:36-37 | the output key is the feature key followed by `"_xf"` |
| DataPreprocessing.TransformedNameInjective | practice_example/data_preprocessing.py:36-37 | two keys have the same output key if and only if they are equal |
| DataPreprocessing.DefaultValue | practice_example/data_preprocessing.py:54 | the fill value is `""` for a string column and 0 otherwise, and has the column's type |
| DataPreprocessing.FillInMissing | practice_example/data_preprocessing.py:41-61 | one value per row; a sparse row's present value passes through unchanged and an empty row gets the default; a dense column is returned as it is |
| DataPreprocessing.FillInMissingTyped | practice_example/data_preprocessing.py:41-61 | filling in keeps every value of the column's type |
| DataPreprocessing.FillInMissingIdempotent | practice_example/data_preprocessing.py:41-61 | filling in a filled-in column, dense or sparse, changes nothing |
| DataPreprocessing.OneHotRow | practice_example/data_preprocessing.py:66 | a row of width `depth` with 1 exactly at the index |
| DataPreprocessing.ConvertNumToOneHot | practice_example/data_preprocessing.py:65-67 | one row of width `num_labels` per index, each the one-hot row of that index |
| DataPreprocessing.OneHotRowSum | practice_example/data_preprocessing.py:66 | a row sums to 1 if the index is in `[0, depth)` and to 0 otherwise |
| DataPreprocessing.OneHotRowIsUnit | practice_example/data_preprocessing.py:65-67 | an in-range index gives a single 1 at that index and 0 elsewhere |
| DataPreprocessing.OneHotRowOutOfRange | practice_example/data_preprocessing.py:65-67 | an out-of-range index, such as the -1 of an unknown value, gives an all-zero row |
| DataPreprocessing.VocabularyIndices | practice_example/data_preprocessing.py:94-96 | the vocabulary analyzer applied to the filled-in column: one index per row, each the analyzer's index of that row's value for the feature and `top_k` |
| DataPreprocessing.BucketIndices | practice_example/data_preprocessing.py:108-109 | the bucketizer applied to the column: one bucket index per row, each the analyzer's index of that row's input for the feature and bucket count |
| DataPreprocessing.ZipCodeTexts | practice_example/data_preprocessing.py:104 | the column handed on by `convert_zip_code`: one value per row, each that row's value marked as converted |
| DataPreprocessing.CastsToFloat | practice_example/data_preprocessing.py:106 | the column after `tf.cast(..., tf.float32)`: one value per row, each that row's value marked as cast |
| DataPreprocessing.BucketInputs | practice_example/data_preprocessing.py:102-106 | only a string column that is not the zip code cannot be bucketized; a string zip goes through the zip-code conversion, any other column through the float cast, one value per row |
| DataPreprocessing.RunSteps | practice_example/data_preprocessing.py:89-118 | the callback's assignments as a fold: each step in turn stores its value under its output key, and the first failing step ends the run (a definition with no contract; its properties are `RunStepsOutcome`, `RunStepsKeys`, `RunStepsValues` and `RunStepsAppend`) |
| DataPreprocessing.Preprocess | practice_example/data_preprocessing.py:80-120 | the callback's result: the fold of its steps in program order from an empty dictionary (a definition with no contract; `PreprocessingFn` is proved equal to it, and `PreprocessOutputKeys`, `PreprocessFailure` and the output lemmas are about it) |
| DataPreprocessing.StepOutput | practice_example/data_preprocessing.py:91-118 | a step fails with a missing feature exactly when its key is absent, and with a string cast exactly for a non-zip string bucket column; otherwise an encoded step has one row per input row and a pass-through step gives the filled-in values |
| DataPreprocessing.PreprocessingStepsAt | practice_example/data_preprocessing.py:89-118 | the callback runs the five one-hot steps, then the zip bucket step, then the text step, then the label |
| DataPreprocessing.RunStepsAppend | practice_example/data_preprocessing.py:89-118 | running two lists of steps in turn is running their concatenation, and a failure in the first list ends the run |
| DataPreprocessing.PreprocessByTable | practice_example/data_preprocessing.py:89-118 | the callback runs the one-hot table, then the bucket table, then the text table, then the label, with the first failure ending the run |
| DataPreprocessing.OneHotHead | practice_example/data_preprocessing.py:91-99 | a run from one-hot step `i` performs that step first, and a failure of the step ends the run |
| DataPreprocessing.OneHotEncodeFeature | practice_example/data_preprocessing.py:92-99 | one pass of the one-hot loop computes exactly the one-hot step's value, failing only on a missing feature |
| DataPreprocessing.BucketHead | practice_example/data_preprocessing.py:101-112 | a run from bucket step `i` performs that step first, and a failure of the step ends the run |
| DataPreprocessing.PassThroughHead | practice_example/data_preprocessing.py:114-118 | a pass-through step fails on a missing feature, and otherwise stores the filled-in values |
| DataPreprocessing.OneHotLoop | practice_example/data_preprocessing.py:91-99 | the one-hot loop computes exactly the fold of the one-hot steps of its table |
| DataPreprocessing.BucketizeFeature | practice_example/data_preprocessing.py:102-111 | one pass of the bucket loop computes exactly the bucket step's value, including its missing-feature and string-cast failures |
| DataPreprocessing.BucketLoop | practice_example/data_preprocessing.py:101-112 | the bucket loop computes exactly the fold of the bucket steps of its table |
| DataPreprocessing.TextLoop | practice_example/data_preprocessing.py:114-116 | the text loop computes exactly the fold of the pass-through steps of its table |
| DataPreprocessing.PreprocessingFn | practice_example/data_preprocessing.py:80-120 | the three loops and the final label assignment compute exactly the step fold `Preprocess` |
| DataPreprocessing.FirstFailing | practice_example/data_preprocessing.py:89-118 | every step before the returned position succeeds, and the step at that position, if any, fails |
| DataPreprocessing.RunStepsOutcome | practice_example/data_preprocessing.py:89-118 | a run succeeds if and only if no step fails, and otherwise returns the first failing step's error |
| DataPreprocessing.RunStepsKeys | practice_example/data_preprocessing.py:89-118 | a successful run adds exactly one output key per step |
| DataPreprocessing.RunStepsValues | practice_example/data_preprocessing.py:89-118 | with distinct feature keys, each step's value is what ends up under its output key |
| DataPreprocessing.PreprocessingInputKeys | practice_example/data_preprocessing.py:89-118 | the callback reads exactly the eight features of `FEATURE_KEYS`, in that order |
| DataPreprocessing.PreprocessingKeysDistinct | practice_example/data_preprocessing.py:14-33 | no feature appears twice across the tables and the label |
| DataPreprocessing.PreprocessOutputKeys | practice_example/data_preprocessing.py:89-120 | a successful callback's output keys are exactly the eight transformed names |
| DataPreprocessing.OutputKeyCount | practice_example/data_preprocessing.py:14-37 | the eight output keys are distinct |
| DataPreprocessing.PreprocessFailure | practice_example/data_preprocessing.py:89-118 | with `convert_zip_code` taken never to raise, the callback fails if and only if a feature it reads is missing; it then reports the first missing one in program order |
| DataPreprocessing.OnlyMissingFeaturesFail | practice_example/data_preprocessing.py:101-106 | with the given tables and `convert_zip_code` taken never to raise, a step fails exactly when its feature is missing, since the only bucketized feature is the zip code |
| DataPreprocessing.PreprocessValues | practice_example/data_preprocessing.py:89-118 | every step's value is stored under its output key |
| DataPreprocessing.PreprocessOneHotOutputs | practice_example/data_preprocessing.py:91-99 | each one-hot feature of dimension `dim` is looked up with `top_k = dim + 1` and encoded with width `dim + 1` |
| DataPreprocessing.PreprocessBucketOutput | practice_example/data_preprocessing.py:101-112 | the zip code is bucketized into 10 buckets and encoded with width 11 |
| DataPreprocessing.PreprocessPassThroughOutputs | practice_example/data_preprocessing.py:114-118 | the text and label outputs are the filled-in values and are not one-hot encoded |
| DataPreprocessing.OneHotFeatureRows | practice_example/data_preprocessing.py:91-99 | with a vocabulary bounded by `top_k`, a row is all zeros for an unknown value (index -1) and a unit vector otherwise |
| DataPreprocessing.BucketFeatureRows | practice_example/data_preprocessing.py:101-112 | one row per input row, each of width `num_buckets + 1`; a row is a unit vector when the bucket index lies in `0 .. num_buckets` and all zeros otherwise, with no bound assumed on the bucketizer |

## Left out

- TFX wiring is not modelled: example-gen split configurations, BigQuery example generation, the
  interactive context and the pipeline (`practice_example/data_ingestion.py:78-109`,
  `practice_example/practice_pipeline.py`). It is framework configuration.
- Data validation (`practice_example/data_validation.py`), the BigQuery connector and the
  configuration and setup files are not part of this model. They are foreign calls, I/O and
  path constants.
- The CSV reader, the TFRecord file writer and protobuf serialisation are not modelled; they are
  I/O. A row is a string-to-string map, and a record is a map to a byte-string feature or an
  int64 feature.
- UTF-8 encoding of the copied fields is not modelled: the record keeps the cell as a string.
- `_float_feature` is not modelled; the writer never calls it.
- Rows the CSV reader pads with `None` (rows shorter than the header) are not modelled: every cell
  is a string.
- Decimal.ParseInt: Python's `int()` also accepts surrounding whitespace, a sign, underscores and
  non-ASCII digits. The model accepts only non-empty ASCII digit strings and rejects the rest.
- `convert_zip_code` (`practice_example/data_preprocessing.py:71-76`) is not interpreted. It rests
  on tensor comparison, RE2 semantics of the pattern `X{0, 5}` and a float32 parse. The model
  only records, as `ZipCodeText`, that a value went through it, and takes the conversion never
  to raise.
- DataPreprocessing.PreprocessFailure: assumes `convert_zip_code` never raises. The real function can
  fail on a string zip: `tf.strings.to_number` may meet text it cannot read (the pattern `X{0, 5}`
  does not clear a mask such as `"123XX"`), and `if zip_code == ''` uses a tensor as a condition.
  The "only if" half of the failure lemma holds only under this assumption.
- DataPreprocessing.OnlyMissingFeaturesFail: assumes `convert_zip_code` never raises, for the same
  reason. A string zip column, the normal case when the transform reads CSV-derived examples, is
  the place where an unmodelled failure could occur.
- `DType` has no floating-point case. `fill_in_missing` would fill a float column with 0 as well,
  but the data set has no float column.
- The analyzers `tft.compute_and_apply_vocabulary` and `tft.bucketize` are parameters: one index
  function per feature and `top_k` or bucket count, fixed for a run. How they are fit over the
  whole data set, frequency ranking, quantile boundaries and float32 casting are not modelled.
- DataPreprocessing.ConvertNumToOneHot: `tf.one_hot` yields float32; the model uses the integers
  0 and 1. The failure of `tf.reshape` for zero labels is not modelled.
- DataPreprocessing.FillInMissing: a sparse row with more than one value (a shape error in
  TensorFlow) cannot be expressed. A sparse column holds at most one value per row.
  `Dense(values)` stands for an `[n, 1]` tensor, on which `tf.squeeze(x, axis = 1)` is the
  identity; a dense tensor of any other shape, on which the squeeze raises, is not modelled.
- DataIngestion.ConvertZipcodeToInt: takes a `string`, so the `isinstance(zipcode, str)` half of
  the guard on line 43 is always true here. Its only caller passes `row["zip_code"]` after
  `clean_rows`, which also turns a `None` zip cell into `"99999"`, so that value is always a
  string. A non-string argument, for which Python would skip the replacement, is not modelled.
- DataPreprocessing.OneHotFeatureRows: only a vocabulary index of -1 or below `top_k` is assumed
  (the default when no out-of-vocabulary buckets are requested). No other slot is guaranteed.
- There is no fit/freeze protocol for the analyzers, no aggregation of errors and no error for
  unknown input features, because the code has none.
