/** The per-row clean-up of clinical_cleanup.py: `process_datum`, the attribute counts
    (`CLIN_ATTR_COUNTS`) that `update_attribute_counts` keeps, the row loop of
    `basic_clinical_cleanup`, and the per-barcode loop of `calculate_genomic_alterations`.
    A row is the dictionary the tab-delimited reader hands over: column name -> Cell. */
module ClinicalRecords {
  import opened Values
  import opened Seqs
  import opened Text

  type Row = map<string, Cell>

  /** `process_datum` (clinical_cleanup.py:84-95): the stripped value, with None, the
      empty string and 'N/A' all becoming 'NA'. */
  function ProcessDatum(val: Cell): string
  {
    match val
    case NoValue => "NA"
    case Text(s) =>
      var v := Strip(s);
      if v == "" || v == "N/A" then "NA" else v
  }

  /** A cleaned datum is never empty nor 'N/A' and has no surrounding whitespace; it is
      the stripped string unless that is empty or 'N/A', when it is 'NA'; cleaning twice
      is cleaning once. */
  lemma ProcessDatumFacts(val: Cell)
    ensures ProcessDatum(val) != "" && ProcessDatum(val) != "N/A"
    ensures Trimmed(ProcessDatum(val))
    ensures val.NoValue? ==> ProcessDatum(val) == "NA"
    ensures val.Text? && !AllSpace(val.s) && Strip(val.s) != "N/A" ==> ProcessDatum(val) == Strip(val.s)
    ensures val.Text? && AllSpace(val.s) ==> ProcessDatum(val) == "NA"
    ensures val.Text? && Strip(val.s) == "N/A" ==> ProcessDatum(val) == "NA"
    ensures ProcessDatum(Text(ProcessDatum(val))) == ProcessDatum(val)
  {
    assert Strip("NA") == "NA";
    if val.Text? {
      StripKeepsMiddle(val.s);
      StripIdempotent(val.s);
    }
  }

  // ---------------------------------------------------------------------------------
  // CLIN_ATTR_COUNTS

  /** The keys among `keys` whose value in lineData is not 'NA'. */
  function Filled(lineData: Row, keys: set<string>): set<string>
  {
    set k | k in keys && k in lineData && lineData[k] != Text("NA")
  }

  /** The counts after adding one for each filled key among `keys`. */
  function Bumped(counts: map<string, nat>, lineData: Row, keys: set<string>): map<string, nat>
  {
    map k | k in counts.Keys + Filled(lineData, keys) ::
      GetOr(counts, k, 0) + (if k in Filled(lineData, keys) then 1 else 0)
  }

  /** One row adds one to exactly the attributes it fills and changes no other count. */
  lemma BumpedCount(counts: map<string, nat>, lineData: Row, k: string)
    ensures GetOr(Bumped(counts, lineData, lineData.Keys), k, 0) ==
      GetOr(counts, k, 0) + (if k in lineData && lineData[k] != Text("NA") then 1 else 0)
    ensures k in Bumped(counts, lineData, lineData.Keys) <==>
      k in counts || (k in lineData && lineData[k] != Text("NA"))
  {
  }

  lemma BumpedStep(counts: map<string, nat>, lineData: Row, done: set<string>, k: string)
    requires k in lineData && k !in done
    ensures Bumped(counts, lineData, done + {k}) ==
      if lineData[k] != Text("NA") then
        Bumped(counts, lineData, done)[k := GetOr(Bumped(counts, lineData, done), k, 0) + 1]
      else Bumped(counts, lineData, done)
  {
    assert Filled(lineData, done + {k}) ==
      Filled(lineData, done) + (if lineData[k] != Text("NA") then {k} else {});
  }

  /** The row cleaning applied to a sample: `dict(zip(clin_attrs, line_data))`. The
      value of a column depends on the column alone, so a repeated column name gives
      the same entry whichever occurrence wins. */
  function SampleFields(attrs: seq<string>, row: Row): (fields: Row)
    ensures fields.Keys == set a | a in attrs
  {
    map a | a in attrs :: Text(ProcessDatum(GetOr(row, a, Text("NA"))))
  }

  /** `line['SAMPLE_ID'].strip()`: KeyError without the column, AttributeError for a
      short row. */
  function SampleId(row: Row): Result<string>
  {
    if "SAMPLE_ID" !in row then Err(PythonError("KeyError"))
    else match row["SAMPLE_ID"]
      case NoValue => Err(PythonError("AttributeError"))
      case Text(s) => Ok(Strip(s))
  }

  /** A column the row is too short to fill. Its cleaned value 'NA' differs from the
      reader's None, and the diagnostic that reports the change concatenates None to a
      string: `'"' + None` raises TypeError. */
  predicate ShortField(attrs: seq<string>, row: Row)
  {
    exists a :: a in attrs && a in row && row[a] == NoValue
  }

  /** One pass of the row loop of `basic_clinical_cleanup` (clinical_cleanup.py:116-130). */
  function CleanRow(attrs: seq<string>, row: Row): Result<(string, Row)>
  {
    var id :- SampleId(row);
    if ShortField(attrs, row) then Err(PythonError("TypeError"))
    else Ok((id, SampleFields(attrs, row)))
  }

  /** What the row loop has produced: `basic_sample_data`, `CLIN_ATTR_COUNTS`, and the
      exception that ended it, if one did. */
  datatype Cleanup = Cleanup(samples: map<string, Row>, counts: map<string, nat>, abort: Option<Abort>)

  /** The row loop over `rows`, from the counts `counts`; it stops at the first row that
      raises. Each row replaces the earlier data of its sample id. */
  function CleanRows(attrs: seq<string>, counts: map<string, nat>, rows: seq<Row>): Cleanup
    decreases |rows|
  {
    if rows == [] then Cleanup(map[], counts, None)
    else
      var before := CleanRows(attrs, counts, rows[..|rows| - 1]);
      if before.abort.Some? then before
      else match CleanRow(attrs, rows[|rows| - 1])
        case Err(e) => before.(abort := Some(e))
        case Ok(r) => Cleanup(before.samples[r.0 := r.1], Bumped(before.counts, r.1, r.1.Keys), None)
  }

  /** How many of `rows` leave attribute k filled after cleaning. */
  function FilledRows(attrs: seq<string>, rows: seq<Row>, k: string): (n: nat)
    ensures n <= |rows|
    decreases |rows|
  {
    if rows == [] then 0
    else
      var last := rows[|rows| - 1];
      FilledRows(attrs, rows[..|rows| - 1], k) +
        (if k in attrs && ProcessDatum(GetOr(last, k, Text("NA"))) != "NA" then 1 else 0)
  }

  /** A loop that ran to the end counts, for every attribute, the rows that fill it,
      including rows whose sample data a later row with the same id replaced. */
  lemma {:induction false} CountsTally(attrs: seq<string>, counts: map<string, nat>, rows: seq<Row>, k: string)
    requires CleanRows(attrs, counts, rows).abort.None?
    ensures GetOr(CleanRows(attrs, counts, rows).counts, k, 0) == GetOr(counts, k, 0) + FilledRows(attrs, rows, k)
    decreases |rows|
  {
    if rows != [] {
      var init := rows[..|rows| - 1];
      CountsTally(attrs, counts, init, k);
      var r := CleanRow(attrs, rows[|rows| - 1]).value;
      BumpedCount(CleanRows(attrs, counts, init).counts, r.1, k);
    }
  }

  /** The loop stops exactly at the first row that raises, with that row's exception. */
  lemma {:induction false} CleanRowsAbort(attrs: seq<string>, counts: map<string, nat>, rows: seq<Row>)
    ensures CleanRows(attrs, counts, rows).abort.None? <==>
      forall i :: 0 <= i < |rows| ==> CleanRow(attrs, rows[i]).Ok?
    ensures CleanRows(attrs, counts, rows).abort.Some? ==>
      exists i :: 0 <= i < |rows| && CleanRow(attrs, rows[i]) == Err(CleanRows(attrs, counts, rows).abort.value)
        && forall j :: 0 <= j < i ==> CleanRow(attrs, rows[j]).Ok?
    decreases |rows|
  {
    if rows != [] {
      var n := |rows| - 1;
      var init := rows[..n];
      CleanRowsAbort(attrs, counts, init);
      assert forall i :: 0 <= i < n ==> rows[i] == init[i];
      if CleanRows(attrs, counts, init).abort.Some? {
        var i :| 0 <= i < n && CleanRow(attrs, init[i]) == Err(CleanRows(attrs, counts, init).abort.value)
          && forall j :: 0 <= j < i ==> CleanRow(attrs, init[j]).Ok?;
        assert CleanRow(attrs, rows[i]) == Err(CleanRows(attrs, counts, rows).abort.value);
      }
    }
  }

  /** The last pass of a loop that ran to the end: every earlier pass ran too, the last
      row cleaned, and its sample data replaced whatever its id held. */
  lemma CleanRowsStep(attrs: seq<string>, counts: map<string, nat>, rows: seq<Row>)
    requires rows != [] && CleanRows(attrs, counts, rows).abort.None?
    ensures CleanRows(attrs, counts, rows[..|rows| - 1]).abort.None?
    ensures CleanRow(attrs, rows[|rows| - 1]).Ok?
    ensures var r := CleanRow(attrs, rows[|rows| - 1]).value;
      && SampleId(rows[|rows| - 1]) == Ok(r.0)
      && CleanRows(attrs, counts, rows).samples == CleanRows(attrs, counts, rows[..|rows| - 1]).samples[r.0 := r.1]
  {
  }

  /** After a complete loop the samples are exactly the ids of the rows. */
  lemma SamplesAreRowIds(attrs: seq<string>, counts: map<string, nat>, rows: seq<Row>, id: string)
    requires CleanRows(attrs, counts, rows).abort.None?
    ensures id in CleanRows(attrs, counts, rows).samples <==> exists i :: 0 <= i < |rows| && SampleId(rows[i]) == Ok(id)
  {
    if id in CleanRows(attrs, counts, rows).samples {
      SampleHasRow(attrs, counts, rows, id);
    }
    if exists i :: 0 <= i < |rows| && SampleId(rows[i]) == Ok(id) {
      var i :| 0 <= i < |rows| && SampleId(rows[i]) == Ok(id);
      RowHasSample(attrs, counts, rows, i);
    }
  }

  lemma {:induction false} SampleHasRow(attrs: seq<string>, counts: map<string, nat>, rows: seq<Row>, id: string)
    requires CleanRows(attrs, counts, rows).abort.None?
    requires id in CleanRows(attrs, counts, rows).samples
    ensures exists i :: 0 <= i < |rows| && SampleId(rows[i]) == Ok(id)
    decreases |rows|
  {
    var n := |rows| - 1;
    var init := rows[..n];
    CleanRowsStep(attrs, counts, rows);
    if SampleId(rows[n]) != Ok(id) {
      SampleHasRow(attrs, counts, init, id);
      var i :| 0 <= i < n && SampleId(init[i]) == Ok(id);
      assert rows[i] == init[i];
    }
  }

  lemma {:induction false} RowHasSample(attrs: seq<string>, counts: map<string, nat>, rows: seq<Row>, i: int)
    requires CleanRows(attrs, counts, rows).abort.None?
    requires 0 <= i < |rows|
    ensures SampleId(rows[i]).Ok? && SampleId(rows[i]).value in CleanRows(attrs, counts, rows).samples
    decreases |rows|
  {
    var n := |rows| - 1;
    var init := rows[..n];
    CleanRowsStep(attrs, counts, rows);
    if i < n {
      assert rows[i] == init[i];
      RowHasSample(attrs, counts, init, i);
    }
  }

  /** A sample holds the cleaned data of the last row with its id. */
  lemma {:induction false} LastRowWins(attrs: seq<string>, counts: map<string, nat>, rows: seq<Row>, i: int)
    requires CleanRows(attrs, counts, rows).abort.None?
    requires 0 <= i < |rows|
    requires forall j :: i < j < |rows| ==> SampleId(rows[j]) != SampleId(rows[i])
    ensures SampleId(rows[i]).Ok?
    ensures SampleId(rows[i]).value in CleanRows(attrs, counts, rows).samples
    ensures CleanRows(attrs, counts, rows).samples[SampleId(rows[i]).value] == SampleFields(attrs, rows[i])
    decreases |rows|
  {
    var n := |rows| - 1;
    var init := rows[..n];
    CleanRowsStep(attrs, counts, rows);
    if i < n {
      assert forall j :: i < j < n ==> init[j] == rows[j];
      assert init[i] == rows[i];
      LastRowWins(attrs, counts, init, i);
    }
  }

  /** Every cleaned sample holds one entry per column, each a cleaned datum. */
  lemma {:induction false} SamplesAreCleaned(attrs: seq<string>, counts: map<string, nat>, rows: seq<Row>, id: string)
    requires id in CleanRows(attrs, counts, rows).samples
    ensures var fields := CleanRows(attrs, counts, rows).samples[id];
      && fields.Keys == (set a | a in attrs)
      && forall a :: a in fields ==> fields[a].Text? && fields[a].s != "" && fields[a].s != "N/A"
    decreases |rows|
  {
    var n := |rows| - 1;
    var init := rows[..n];
    var before := CleanRows(attrs, counts, init);
    if before.abort.None? && CleanRow(attrs, rows[n]).Ok? && CleanRow(attrs, rows[n]).value.0 == id {
      var fields := SampleFields(attrs, rows[n]);
      forall a | a in fields ensures fields[a].Text? && fields[a].s != "" && fields[a].s != "N/A" {
        ProcessDatumFacts(GetOr(rows[n], a, Text("NA")));
      }
    } else {
      SamplesAreCleaned(attrs, counts, init, id);
    }
  }

  /** The global `CLIN_ATTR_COUNTS`: per attribute, the number of rows that filled it. */
  class AttributeCounts {
    var counts: map<string, nat>

    constructor()
      ensures counts == map[]
    {
      counts := map[];
    }

    /** `update_attribute_counts` (clinical_cleanup.py:98-103). */
    method UpdateAttributeCounts(lineData: Row)
      modifies this
      ensures counts == Bumped(old(counts), lineData, lineData.Keys)
    {
      var todo := lineData.Keys;
      while todo != {}
        invariant todo <= lineData.Keys
        invariant counts == Bumped(old(counts), lineData, lineData.Keys - todo)
        decreases todo
      {
        var k :| k in todo;
        BumpedStep(old(counts), lineData, lineData.Keys - todo, k);
        assert lineData.Keys - (todo - {k}) == (lineData.Keys - todo) + {k};
        if lineData[k] != Text("NA") {
          counts := counts[k := GetOr(counts, k, 0) + 1];
        }
        todo := todo - {k};
      }
    }

    /** The row loop of `basic_clinical_cleanup` (clinical_cleanup.py:116-130), over the
        rows of the file and its cleaned header `attrs`. */
    method BasicClinicalCleanup(attrs: seq<string>, rows: seq<Row>) returns (r: Result<map<string, Row>>)
      modifies this
      ensures var run := CleanRows(attrs, old(counts), rows);
        && counts == run.counts
        && (run.abort.None? ==> r == Ok(run.samples))
        && (run.abort.Some? ==> r == Err(run.abort.value))
    {
      var samples: map<string, Row> := map[];
      var i := 0;
      while i < |rows|
        invariant 0 <= i <= |rows|
        invariant CleanRows(attrs, old(counts), rows[..i]) == Cleanup(samples, counts, None)
      {
        assert rows[..i + 1][..i] == rows[..i];
        var row := rows[i];
        var id := SampleId(row);
        if id.Err? {
          AbortPersists(attrs, old(counts), rows, i + 1);
          return Err(id.error);
        }
        if ShortField(attrs, row) {
          AbortPersists(attrs, old(counts), rows, i + 1);
          return Err(PythonError("TypeError"));
        }
        var sampleData := SampleFields(attrs, row);
        samples := samples[id.value := sampleData];
        UpdateAttributeCounts(sampleData);
        i := i + 1;
      }
      assert rows[..i] == rows;
      return Ok(samples);
    }
  }

  /** Once a prefix of the rows raises, the whole loop ends with that exception. */
  lemma {:induction false} AbortPersists(attrs: seq<string>, counts: map<string, nat>, rows: seq<Row>, k: int)
    requires 0 <= k <= |rows|
    requires CleanRows(attrs, counts, rows[..k]).abort.Some?
    ensures CleanRows(attrs, counts, rows) == CleanRows(attrs, counts, rows[..k])
    decreases |rows| - k
  {
    if k < |rows| {
      assert rows[..k + 1][..k] == rows[..k];
      AbortPersists(attrs, counts, rows, k + 1);
    } else {
      assert rows[..k] == rows;
    }
  }

  // ---------------------------------------------------------------------------------
  // GENOMIC_ALTERATIONS

  /** `line['Tumor_Sample_Barcode'].strip()` */
  function Barcode(row: Row): Result<string>
  {
    if "Tumor_Sample_Barcode" !in row then Err(PythonError("KeyError"))
    else match row["Tumor_Sample_Barcode"]
      case NoValue => Err(PythonError("AttributeError"))
      case Text(s) => Ok(Strip(s))
  }

  /** The barcodes of all rows, or the first row's exception. */
  function Barcodes(rows: seq<Row>): (r: Result<seq<string>>)
    ensures r.Ok? ==> |r.value| == |rows|
    decreases |rows|
  {
    if rows == [] then Ok([])
    else
      var init :- Barcodes(rows[..|rows| - 1]);
      var b :- Barcode(rows[|rows| - 1]);
      Ok(init + [b])
  }

  /** `genomic_alts_data` after the loop (clinical_cleanup.py:160-163). */
  function AlterationCounts(rows: seq<Row>): Result<map<string, nat>>
    decreases |rows|
  {
    if rows == [] then Ok(map[])
    else
      var counts :- AlterationCounts(rows[..|rows| - 1]);
      var b :- Barcode(rows[|rows| - 1]);
      Ok(counts[b := GetOr(counts, b, 0) + 1])
  }

  /** Each sample's alteration count is the number of rows carrying its barcode, and
      only barcodes that occur are counted. */
  lemma {:induction false} AlterationCountsOccurrences(rows: seq<Row>, id: string)
    ensures AlterationCounts(rows).Ok? <==> Barcodes(rows).Ok?
    ensures AlterationCounts(rows).Ok? ==>
      && GetOr(AlterationCounts(rows).value, id, 0) == Occurrences(Barcodes(rows).value, id)
      && (id in AlterationCounts(rows).value <==> id in Barcodes(rows).value)
    decreases |rows|
  {
    if rows != [] {
      var init := rows[..|rows| - 1];
      AlterationCountsOccurrences(init, id);
      if Barcodes(rows).Ok? {
        var bs := Barcodes(rows).value;
        assert bs[..|bs| - 1] == Barcodes(init).value;
      }
    }
  }

  /** The per-barcode counting loop of `calculate_genomic_alterations`. */
  method CalculateGenomicAlterations(rows: seq<Row>) returns (r: Result<map<string, nat>>)
    ensures r == AlterationCounts(rows)
  {
    var counts: map<string, nat> := map[];
    var i := 0;
    while i < |rows|
      invariant 0 <= i <= |rows|
      invariant AlterationCounts(rows[..i]) == Ok(counts)
    {
      assert rows[..i + 1][..i] == rows[..i];
      var b := Barcode(rows[i]);
      if b.Err? {
        AlterationAbortPersists(rows, i + 1);
        return Err(b.error);
      }
      counts := counts[b.value := GetOr(counts, b.value, 0) + 1];
      i := i + 1;
    }
    assert rows[..i] == rows;
    return Ok(counts);
  }

  lemma {:induction false} AlterationAbortPersists(rows: seq<Row>, k: int)
    requires 0 <= k <= |rows|
    requires AlterationCounts(rows[..k]).Err?
    ensures AlterationCounts(rows) == AlterationCounts(rows[..k])
    decreases |rows| - k
  {
    if k < |rows| {
      assert rows[..k + 1][..k] == rows[..k];
      AlterationAbortPersists(rows, k + 1);
    } else {
      assert rows[..k] == rows;
    }
  }
}
