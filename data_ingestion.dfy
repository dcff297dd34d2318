/**
 * Ingestion of consumer-complaint CSV rows into records: the clean-up of an
 * empty zip code, the zip-code-to-integer conversion with its "XX" masking,
 * the eleven-field record built for each row, and the writer loop over rows.
 */
module DataIngestion {
  import opened Wrappers
  import opened Decimal

  /** A CSV row as the dictionary reader yields it: column name to cell text. */
  type Row = map<string, string>

  /** The exceptions the ingestion code can raise on one row. */
  datatype IngestError =
    | MissingField(name: string)    // KeyError: the row has no such column
    | InvalidLiteral(text: string)  // ValueError: int() rejects the (masked) zip text
    | Int64OutOfRange(value: int)   // ValueError: the zip value does not fit an int64 list

  const ZIP_CODE := "zip_code"

  /** What an empty zip code is replaced by. */
  const ZIP_SENTINEL := "99999"

  const INT64_MIN: int := -0x8000_0000_0000_0000
  const INT64_MAX: int := 0x7FFF_FFFF_FFFF_FFFF

  // ---------------------------------------------------------------------------
  // clean_rows
  // ---------------------------------------------------------------------------

  /** The row after clean-up; looking up a missing "zip_code" column raises. */
  function Cleaned(row: Row): (r: Result<Row, IngestError>)
    ensures r.Err? <==> ZIP_CODE !in row
    ensures r.Err? ==> r.error == MissingField(ZIP_CODE)
    ensures r.Ok? ==> r.value.Keys == row.Keys && r.value[ZIP_CODE] != ""
    ensures r.Ok? ==> forall k :: k in row && k != ZIP_CODE ==> r.value[k] == row[k]
    ensures r.Ok? && row[ZIP_CODE] == "" ==> r.value[ZIP_CODE] == ZIP_SENTINEL
    ensures r.Ok? && row[ZIP_CODE] != "" ==> r.value == row
  {
    if ZIP_CODE !in row then Err(MissingField(ZIP_CODE))
    else if row[ZIP_CODE] == "" then Ok(row[ZIP_CODE := ZIP_SENTINEL])
    else Ok(row)
  }

  /** Cleaning a cleaned row changes nothing. */
  lemma CleanedIdempotent(row: Row)
    requires Cleaned(row).Ok?
    ensures Cleaned(Cleaned(row).value) == Cleaned(row)
  {
  }

  /** The dictionary object a row is read into; clean-up rewrites it in place. */
  class CsvRow {
    var cells: Row

    constructor (cells: Row)
      ensures this.cells == cells
    {
      this.cells := cells;
    }
  }

  /** Cleans `row` in place and hands back the same object. */
  method CleanRows(row: CsvRow) returns (r: Result<CsvRow, IngestError>)
    modifies row
    ensures r.Ok? <==> Cleaned(old(row.cells)).Ok?
    ensures r.Ok? ==> r.value == row && row.cells == Cleaned(old(row.cells)).value
    ensures r.Err? ==> r.error == Cleaned(old(row.cells)).error && row.cells == old(row.cells)
  {
    if ZIP_CODE !in row.cells {
      return Err(MissingField(ZIP_CODE));
    }
    if row.cells[ZIP_CODE] == "" {
      row.cells := row.cells[ZIP_CODE := ZIP_SENTINEL];
    }
    return Ok(row);
  }

  // ---------------------------------------------------------------------------
  // convert_zipcode_to_int
  // ---------------------------------------------------------------------------

  /** `"XX" in s`: some position starts a pair of 'X'. */
  predicate ContainsXX(s: string) {
    exists i :: 0 <= i < |s| - 1 && s[i] == 'X' && s[i + 1] == 'X'
  }

  /**
   * `s.replace("XX", "00")`: scanning from the left, every non-overlapping
   * pair "XX" becomes "00"; every other character is kept.
   */
  function ReplaceXX(s: string): (r: string)
    ensures |r| == |s|
  {
    if |s| < 2 then s
    else if s[0] == 'X' && s[1] == 'X' then "00" + ReplaceXX(s[2..])
    else [s[0]] + ReplaceXX(s[1..])
  }

  /**
   * Replacement starts at the leftmost pair: everything before it is kept,
   * the pair becomes "00", and the scan resumes after the pair.
   */
  lemma ReplaceXXFirst(s: string, i: nat)
    requires i + 1 < |s| && s[i] == 'X' && s[i + 1] == 'X' && !ContainsXX(s[..i + 1])
    ensures ReplaceXX(s) == s[..i] + "00" + ReplaceXX(s[i + 2..])
  {
    forall k | 0 <= k < i
      ensures s[k] != 'X' || s[k + 1] != 'X'
    {
      assert s[..i + 1][k] == s[k] && s[..i + 1][k + 1] == s[k + 1];
    }
    ReplaceXXSkip(s, i);
  }

  /** `ReplaceXXFirst` with the absence of an earlier pair stated position by position. */
  lemma {:induction false} ReplaceXXSkip(s: string, i: nat)
    requires i + 1 < |s| && s[i] == 'X' && s[i + 1] == 'X'
    requires forall k :: 0 <= k < i ==> s[k] != 'X' || s[k + 1] != 'X'
    ensures ReplaceXX(s) == s[..i] + "00" + ReplaceXX(s[i + 2..])
    decreases i
  {
    if i == 0 {
      assert s[..0] == [];
    } else {
      var t := s[1..];
      assert s[0] != 'X' || s[1] != 'X';
      NoPairBeforeTail(s, i);
      ReplaceXXSkip(t, i - 1);
      assert t[i + 1..] == s[i + 2..];
      assert [s[0]] + t[..i - 1] == s[..i];
      calc {
        ReplaceXX(s);
        [s[0]] + ReplaceXX(t);
        [s[0]] + (t[..i - 1] + "00" + ReplaceXX(s[i + 2..]));
        ([s[0]] + t[..i - 1]) + "00" + ReplaceXX(s[i + 2..]);
      }
    }
  }

  /** No pair starts before position `i` of `s`, so none starts before `i - 1` of its tail. */
  lemma NoPairBeforeTail(s: string, i: nat)
    requires 0 < i < |s|
    requires forall k :: 0 <= k < i ==> s[k] != 'X' || s[k + 1] != 'X'
    ensures forall k :: 0 <= k < i - 1 ==> s[1..][k] != 'X' || s[1..][k + 1] != 'X'
  {
    forall k | 0 <= k < i - 1
      ensures s[1..][k] != 'X' || s[1..][k + 1] != 'X'
    {
      assert s[1..][k] == s[k + 1] && s[1..][k + 1] == s[k + 2];
    }
  }

  /** An even run of 'X' is replaced pair by pair from the left. */
  lemma ReplaceXXEvenRun()
    ensures ReplaceXX("XXXX") == "0000"
  {
    ReplaceXXFirst("XXXX", 0);
    ReplaceXXFirst("XX", 0);
    assert "XXXX"[2..] == "XX";
    assert "XX"[2..] == [];
  }

  /** The first character after replacement: '0' when a pair starts the string. */
  lemma ReplaceXXHead(s: string)
    requires s != []
    ensures ReplaceXX(s)[0] == if |s| >= 2 && s[0] == 'X' && s[1] == 'X' then '0' else s[0]
  {
  }

  /** Replacement rewrites only 'X' characters, and only into '0'. */
  lemma {:induction false} ReplaceXXPointwise(s: string)
    ensures forall i :: 0 <= i < |s| ==>
      ReplaceXX(s)[i] == s[i] || (s[i] == 'X' && ReplaceXX(s)[i] == '0')
    decreases |s|
  {
    if |s| >= 2 {
      if s[0] == 'X' && s[1] == 'X' {
        ReplaceXXPointwise(s[2..]);
        forall i | 2 <= i < |s| ensures ReplaceXX(s)[i] == ReplaceXX(s[2..])[i - 2] { }
      } else {
        ReplaceXXPointwise(s[1..]);
        forall i | 1 <= i < |s| ensures ReplaceXX(s)[i] == ReplaceXX(s[1..])[i - 1] { }
      }
    }
  }

  /** No "XX" is left after replacement (a run of three or more may leave a single 'X'). */
  lemma {:induction false} ReplaceXXLeavesNoPair(s: string)
    ensures !ContainsXX(ReplaceXX(s))
    decreases |s|
  {
    var r := ReplaceXX(s);
    if |s| >= 2 {
      if s[0] == 'X' && s[1] == 'X' {
        var t := ReplaceXX(s[2..]);
        ReplaceXXLeavesNoPair(s[2..]);
        assert r == "00" + t;
        forall i | 0 <= i < |r| - 1 ensures !(r[i] == 'X' && r[i + 1] == 'X') {
          if i >= 2 { assert r[i] == t[i - 2] && r[i + 1] == t[i - 1]; }
        }
      } else {
        var t := ReplaceXX(s[1..]);
        ReplaceXXLeavesNoPair(s[1..]);
        ReplaceXXHead(s[1..]);
        assert r == [s[0]] + t;
        forall i | 0 <= i < |r| - 1 ensures !(r[i] == 'X' && r[i + 1] == 'X') {
          if i >= 1 { assert r[i] == t[i - 1] && r[i + 1] == t[i]; }
        }
      }
    }
  }

  /** Replacement is a no-op exactly when the string holds no "XX". */
  lemma {:induction false} ReplaceXXIdentity(s: string)
    ensures ReplaceXX(s) == s <==> !ContainsXX(s)
    decreases |s|
  {
    if |s| >= 2 {
      if s[0] == 'X' && s[1] == 'X' {
        assert ReplaceXX(s)[0] == '0';
        assert s[0] == 'X' && s[0 + 1] == 'X';
      } else {
        var t := s[1..];
        ReplaceXXIdentity(t);
        assert ContainsXX(s) <==> ContainsXX(t) by {
          if ContainsXX(s) {
            var i :| 0 <= i < |s| - 1 && s[i] == 'X' && s[i + 1] == 'X';
            assert i >= 1 && t[i - 1] == 'X' && t[i - 1 + 1] == 'X';
          }
          if ContainsXX(t) {
            var i :| 0 <= i < |t| - 1 && t[i] == 'X' && t[i + 1] == 'X';
            assert s[i + 1] == 'X' && s[i + 1 + 1] == 'X';
          }
        }
        assert ReplaceXX(s) == [s[0]] + ReplaceXX(t);
        assert s == [s[0]] + t;
      }
    }
  }

  /** A digit string followed by "XX" is left alone except for the final pair. */
  lemma {:induction false} ReplaceXXDigitsThenMask(p: string)
    requires AllDigits(p)
    ensures ReplaceXX(p + "XX") == p + "00"
    decreases |p|
  {
    if p == [] {
      assert p + "XX" == "XX";
    } else {
      ReplaceXXDigitsThenMask(p[1..]);
      assert (p + "XX")[1..] == p[1..] + "XX";
      assert p + "00" == [p[0]] + (p[1..] + "00");
    }
  }

  /**
   * `convert_zipcode_to_int`: rewrite every "XX" to "00" when there is one,
   * then parse the text as a decimal integer.
   */
  function ConvertZipcodeToInt(zipcode: string): (r: Result<int, IngestError>)
    ensures r.Ok? <==> zipcode != "" && AllDigits(ReplaceXX(zipcode))
    ensures r.Ok? ==> r.value >= 0 && r.value == DecimalValue(ReplaceXX(zipcode))
    ensures r.Err? ==> r.error == InvalidLiteral(ReplaceXX(zipcode))
  {
    ReplaceXXIdentity(zipcode);
    var masked := if ContainsXX(zipcode) then ReplaceXX(zipcode) else zipcode;
    match ParseInt(masked)
    case Some(n) => Ok(n)
    case None => Err(InvalidLiteral(masked))
  }

  /** A plain digit string parses to its decimal value. */
  lemma ConvertDigits(zipcode: string)
    requires zipcode != "" && AllDigits(zipcode)
    ensures ConvertZipcodeToInt(zipcode) == Ok(DecimalValue(zipcode))
  {
    assert !ContainsXX(zipcode);
    ReplaceXXIdentity(zipcode);
  }

  /** Without "XX" the conversion is exactly `int(zipcode)`. */
  lemma ConvertUnmasked(zipcode: string)
    requires !ContainsXX(zipcode)
    ensures ConvertZipcodeToInt(zipcode) ==
      (if zipcode != "" && AllDigits(zipcode) then Ok(DecimalValue(zipcode)) else Err(InvalidLiteral(zipcode)))
  {
    ReplaceXXIdentity(zipcode);
  }

  /** An 'X' that survives the replacement makes the conversion fail. */
  lemma ConvertLeftoverXFails(zipcode: string, i: nat)
    requires i < |zipcode| && ReplaceXX(zipcode)[i] == 'X'
    ensures ConvertZipcodeToInt(zipcode).Err?
  {
  }

  /** Masking the last two digits reads them as zeros: `p + "XX"` is 100 times `p`. */
  lemma ConvertMaskedSuffix(p: string)
    requires AllDigits(p)
    ensures ConvertZipcodeToInt(p + "XX") == Ok(100 * DecimalValue(p))
  {
    ReplaceXXDigitsThenMask(p);
    DoubleZero();
    DecimalValueAppend(p, "00");
    assert Pow10(|"00"|) == 100;
    assert DecimalValue(p + "00") == 100 * DecimalValue(p);
  }

  lemma DoubleZero()
    ensures AllDigits("00") && DecimalValue("00") == 0
  {
    assert "00"[..1] == "0" && "0"[..0] == [];
  }

  /** The masked example from the data: "123XX" reads as 12300. */
  lemma ConvertMaskedExample()
    ensures ConvertZipcodeToInt("123XX") == Ok(12300)
  {
    assert DecimalValue("123") == 123 by {
      assert "123"[..2] == "12" && "12"[..1] == "1" && "1"[..0] == [];
    }
    ConvertMaskedSuffix("123");
    assert "123" + "XX" == "123XX";
  }

  /** The sentinel of an empty zip code reads as 99999. */
  lemma ConvertSentinel()
    ensures ConvertZipcodeToInt(ZIP_SENTINEL) == Ok(99999)
  {
    assert DecimalValue("9") == 9 by { assert "9"[..0] == []; }
    assert DecimalValue("99") == 99 by { assert "99"[..1] == "9"; }
    assert DecimalValue("999") == 999 by { assert "999"[..2] == "99"; }
    assert DecimalValue("9999") == 9999 by { assert "9999"[..3] == "999"; }
    assert DecimalValue("99999") == 99999 by { assert "99999"[..4] == "9999"; }
    ConvertDigits(ZIP_SENTINEL);
  }

  /** An odd run of 'X' keeps its last 'X', and the text is rejected. */
  lemma ConvertOddMaskFails()
    ensures ConvertZipcodeToInt("XXXXX") == Err(InvalidLiteral("0000X"))
  {
    assert ReplaceXX("XXXXX") == "0000X" by {
      assert "XXXXX"[2..] == "XXX" && "XXX"[2..] == "X";
    }
    assert !IsDigit("0000X"[4]);
  }

  /** A single 'X' is not a mask: the text is parsed as it is, and rejected. */
  lemma ConvertLoneXFails()
    ensures ConvertZipcodeToInt("1234X") == Err(InvalidLiteral("1234X"))
  {
    assert !ContainsXX("1234X") by {
      assert forall i :: 0 <= i < 4 ==> "1234X"[i] != 'X';
    }
    ReplaceXXIdentity("1234X");
    assert !IsDigit("1234X"[4]);
  }

  // ---------------------------------------------------------------------------
  // The record written for one row
  // ---------------------------------------------------------------------------

  /** A feature of the written example: a byte string or a 64-bit integer. */
  datatype Feature = BytesFeature(text: string) | Int64Feature(number: int)

  type Record = map<string, Feature>

  /** The record's keys, in the order the record literal evaluates them. */
  const RECORD_FIELDS: seq<string> := [
    "product", "sub_product", "issue", "sub_issue", "consumer_complaint_narrative",
    "company", "state", ZIP_CODE, "company_response", "timely_response", "consumer_disputed"
  ]

  /** The feature stored under `name`: the zip code is converted, every other cell copied. */
  function FieldFeature(row: Row, name: string): (r: Result<Feature, IngestError>)
    ensures r.Ok? && name != ZIP_CODE ==> name in row && r.value == BytesFeature(row[name])
    ensures r.Ok? && name == ZIP_CODE ==>
      name in row && r.value.Int64Feature? && ConvertZipcodeToInt(row[name]) == Ok(r.value.number)
    ensures r.Err? <==> (
      || name !in row
      || (name == ZIP_CODE && ConvertZipcodeToInt(row[name]).Err?)
      || (name == ZIP_CODE && !(INT64_MIN <= ConvertZipcodeToInt(row[name]).value <= INT64_MAX)))
    ensures r.Err? && name !in row ==> r.error == MissingField(name)
    ensures r.Err? && name in row && name == ZIP_CODE && ConvertZipcodeToInt(row[name]).Err? ==>
      r.error == ConvertZipcodeToInt(row[name]).error
    ensures r.Err? && name in row && name == ZIP_CODE && ConvertZipcodeToInt(row[name]).Ok? ==>
      r.error == Int64OutOfRange(ConvertZipcodeToInt(row[name]).value)
  {
    if name !in row then Err(MissingField(name))
    else if name == ZIP_CODE then
      match ConvertZipcodeToInt(row[name])
      case Err(e) => Err(e)
      case Ok(n) => if INT64_MIN <= n <= INT64_MAX then Ok(Int64Feature(n)) else Err(Int64OutOfRange(n))
    else Ok(BytesFeature(row[name]))
  }

  /** Evaluates the features of `names` left to right; the first failure is the record's. */
  function BuildFeatures(row: Row, names: seq<string>): (r: Result<Record, IngestError>)
    ensures r.Ok? <==> forall n :: n in names ==> FieldFeature(row, n).Ok?
    ensures r.Ok? ==> r.value.Keys == (set n | n in names)
    ensures r.Ok? ==> forall n :: n in names ==> r.value[n] == FieldFeature(row, n).value
    ensures r.Err? ==> exists i :: (
      && 0 <= i < |names|
      && FieldFeature(row, names[i]) == Err(r.error)
      && forall j :: 0 <= j < i ==> FieldFeature(row, names[j]).Ok?)
    decreases |names|
  {
    if names == [] then Ok(map[])
    else
      match FieldFeature(row, names[0])
      case Err(e) => Err(e)
      case Ok(f) =>
        assert forall n :: n in names <==> n == names[0] || n in names[1..];
        match BuildFeatures(row, names[1..])
        case Err(e) =>
          assert forall i :: 1 <= i < |names| ==> names[1..][i - 1] == names[i];
          Err(e)
        case Ok(m) => Ok(m[names[0] := f])
  }

  /** The record literal of the writer, applied to an (already cleaned) row. */
  function ToRecord(row: Row): (r: Result<Record, IngestError>)
    ensures r.Ok? ==> HasAllFields(row) && r.value.Keys == (set n | n in RECORD_FIELDS)
  {
    BuildFeatures(row, RECORD_FIELDS)
  }

  /** Every column the record literal reads is in the row. */
  predicate HasAllFields(row: Row)
    ensures HasAllFields(row) ==> ZIP_CODE in row
  {
    forall n :: n in RECORD_FIELDS ==> n in row
  }

  /** The eleven field names are distinct, so a record has eleven keys. */
  lemma RecordKeyCount()
    ensures |set n | n in RECORD_FIELDS| == 11
  {
    var keys: set<string> := {};
    for i := 0 to |RECORD_FIELDS|
      invariant keys == set n | n in RECORD_FIELDS[..i]
      invariant |keys| == i
    {
      assert RECORD_FIELDS[i] !in RECORD_FIELDS[..i];
      assert RECORD_FIELDS[..i + 1] == RECORD_FIELDS[..i] + [RECORD_FIELDS[i]];
      keys := keys + {RECORD_FIELDS[i]};
    }
    assert RECORD_FIELDS[..|RECORD_FIELDS|] == RECORD_FIELDS;
  }

  /** A written record has exactly the eleven keys; ten are copied strings, one the converted zip. */
  lemma RecordLayout(row: Row)
    requires ToRecord(row).Ok?
    ensures var rec := ToRecord(row).value;
      && rec.Keys == (set n | n in RECORD_FIELDS)
      && (forall k :: k in rec && k != ZIP_CODE ==> k in row && rec[k] == BytesFeature(row[k]))
      && ZIP_CODE in row && rec[ZIP_CODE] == Int64Feature(ConvertZipcodeToInt(row[ZIP_CODE]).value)
  {
    var rec := ToRecord(row).value;
    assert ZIP_CODE in RECORD_FIELDS;
    forall k | k in rec && k != ZIP_CODE ensures k in row && rec[k] == BytesFeature(row[k]) {
      assert k in RECORD_FIELDS;
    }
  }

  /** The record exists exactly when every column is present and the zip converts into int64 range. */
  lemma RecordSucceeds(row: Row)
    ensures ToRecord(row).Ok? <==>
      && HasAllFields(row)
      && ConvertZipcodeToInt(row[ZIP_CODE]).Ok?
      && INT64_MIN <= ConvertZipcodeToInt(row[ZIP_CODE]).value <= INT64_MAX
  {
    assert ZIP_CODE in RECORD_FIELDS;
    if HasAllFields(row) && ConvertZipcodeToInt(row[ZIP_CODE]).Ok?
      && INT64_MIN <= ConvertZipcodeToInt(row[ZIP_CODE]).value <= INT64_MAX
    {
      forall n | n in RECORD_FIELDS ensures FieldFeature(row, n).Ok? {
        assert n in row;
      }
    }
  }

  /** One row through clean-up and the record literal. */
  function RowRecord(row: Row): (r: Result<Record, IngestError>)
    ensures ZIP_CODE !in row ==> r == Err(MissingField(ZIP_CODE))
    ensures ZIP_CODE in row && row[ZIP_CODE] == "" ==> r == ToRecord(row[ZIP_CODE := ZIP_SENTINEL])
    ensures ZIP_CODE in row && row[ZIP_CODE] != "" ==> r == ToRecord(row)
  {
    match Cleaned(row)
    case Err(e) => Err(e)
    case Ok(cleaned) => ToRecord(cleaned)
  }

  lemma RowRecordOfCleaned(row: Row, cleaned: Row)
    requires Cleaned(row) == Ok(cleaned)
    ensures RowRecord(row) == ToRecord(cleaned)
  {
  }

  /** An empty zip code is written as the integer 99999. */
  lemma EmptyZipWrittenAsSentinel(row: Row)
    requires HasAllFields(row) && row[ZIP_CODE] == ""
    ensures RowRecord(row).Ok? && RowRecord(row).value[ZIP_CODE] == Int64Feature(99999)
  {
    ConvertSentinel();
    var cleaned := Cleaned(row).value;
    RecordSucceeds(cleaned);
    RecordLayout(cleaned);
  }

  // ---------------------------------------------------------------------------
  // tfrecord_data_writer: the loop over rows
  // ---------------------------------------------------------------------------

  /**
   * Reads each row into a fresh dictionary, cleans it in place and builds its
   * record; the first row that raises stops the writer, and the records
   * handed to the writer before it are the ones returned.
   */
  method TfrecordDataWriter(rows: seq<Row>) returns (written: seq<Record>, failure: Option<IngestError>)
    ensures |written| <= |rows|
    ensures forall i :: 0 <= i < |written| ==> RowRecord(rows[i]) == Ok(written[i])
    ensures failure.None? <==> |written| == |rows|
    ensures failure.Some? ==> RowRecord(rows[|written|]) == Err(failure.value)
  {
    written := [];
    for i := 0 to |rows|
      invariant |written| == i
      invariant forall j :: 0 <= j < i ==> RowRecord(rows[j]) == Ok(written[j])
    {
      var row := new CsvRow(rows[i]);
      var cleaned := CleanRows(row);
      if cleaned.Err? {
        return written, Some(cleaned.error);
      }
      RowRecordOfCleaned(rows[i], cleaned.value.cells);
      var example := ToRecord(cleaned.value.cells);
      if example.Err? {
        return written, Some(example.error);
      }
      written := written + [example.value];
    }
    failure := None;
  }
}
