/** filter_study_by_subset.py over in-memory rows: the patient list derived from the
    sample subset list, the filters for normal and profile data files, and the choice of
    filter by file name. A row is the dictionary the tab-delimited reader hands over. */
module StudySubset {
  import opened Values
  import opened Seqs
  import opened Text

  type Row = map<string, Cell>

  /** `NON_CASE_IDS` (filter_study_by_subset.py:9). */
  const NonCaseIds: seq<string> := ["Hugo_Symbol", "Entrez_Gene_Id"]

  /** `PROFILE_DATATYPE_FILENAMES` (filter_study_by_subset.py:10-13). */
  const ProfileDatatypeFilenames: seq<string> := [
    "data_CNA.txt", "data_expression_median.txt", "data_expression_miRNA.txt",
    "data_methylation_hm27.txt", "data_RNA_Seq_expression_median.txt"
  ]

  /** `NORMAL_DATATYPE_FILENAMES` (filter_study_by_subset.py:15-23): file name -> case id
      column. */
  const NormalDatatypeFilenames: map<string, string> := map[
    "data_clinical.txt" := "SAMPLE_ID",
    "data_clinical_patient.txt" := "PATIENT_ID",
    "data_clinical_sample.txt" := "SAMPLE_ID",
    "data_mutations_extended.txt" := "Tumor_Sample_Barcode",
    "_data_cna_hg18.seg" := "ID",
    "_data_cna_hg19.seg" := "ID",
    "data_timeline" := "PATIENT_ID_LIST"
  ]

  /** `process_datum` (filter_study_by_subset.py:26-35): the stripped string, '' for None. */
  function ProcessDatum(value: Cell): string
  {
    match value
    case NoValue => ""
    case Text(s) => Strip(s)
  }

  /** `map(str.strip, subset_file.read().split('\n'))` (filter_study_by_subset.py:190):
      the sample subset list read from the subset file's contents. */
  function SubsetList(content: string): (ids: seq<string>)
    ensures |ids| >= 1
  {
    var lines := Split(content, '\n');
    seq(|lines|, i requires 0 <= i < |lines| => Strip(lines[i]))
  }

  /** Each loaded id is stripped, and a loaded list is never empty (even an empty file
      yields ['']), so the run's "subset list got deleted" exit cannot follow a load. */
  lemma SubsetListFacts(content: string, filename: string)
    ensures forall i :: 0 <= i < |SubsetList(content)| ==> Trimmed(SubsetList(content)[i])
    ensures Dispatch(filename, SubsetList(content)).Ok?
  {
    var lines := Split(content, '\n');
    forall i | 0 <= i < |lines| ensures Trimmed(SubsetList(content)[i]) {
      StripKeepsMiddle(lines[i]);
    }
  }

  /** A missing value cleans to ''; a string cleans to its middle part, with only
      whitespace cut from either end, and to '' exactly when it is all whitespace. A
      cleaned datum has no surrounding whitespace and cleaning it again changes nothing. */
  lemma ProcessDatumFacts(value: Cell)
    ensures value.NoValue? ==> ProcessDatum(value) == ""
    ensures value.Text? ==> var r := ProcessDatum(value);
      exists i :: 0 <= i <= |value.s| - |r| && r == value.s[i..i + |r|]
        && AllSpace(value.s[..i]) && AllSpace(value.s[i + |r|..])
    ensures value.Text? ==> (ProcessDatum(value) == "" <==> AllSpace(value.s))
    ensures Trimmed(ProcessDatum(value))
    ensures ProcessDatum(Text(ProcessDatum(value))) == ProcessDatum(value)
  {
    if value.Text? {
      StripKeepsMiddle(value.s);
      StripIdempotent(value.s);
    }
  }

  /** `map(lambda x: process_datum(line.get(x, '')), header)`: the row projected onto the
      header and cleaned. */
  function CleanedRow(header: seq<string>, row: Row): (r: seq<string>)
    ensures |r| == |header|
  {
    seq(|header|, i requires 0 <= i < |header| => ProcessDatum(GetOr(row, header[i], Text(""))))
  }

  /** What a filter leaves for a file: nothing (the file is skipped), or the header and
      the cleaned rows that are written out. */
  datatype Outcome = Skipped | Written(header: seq<string>, rows: seq<seq<string>>)

  // ---------------------------------------------------------------------------------
  // Profile files (filter_study_by_subset.py:46-92)

  /** The non-case-id columns of the file header, in file order. */
  function NonCaseColumns(fileHeader: seq<string>): seq<string>
  {
    Filter(fileHeader, (h: string) => h in NonCaseIds)
  }

  /** `subset_header`: the non-case-id columns followed by the whole sample subset list. */
  function ProfileHeader(fileHeader: seq<string>, subset: seq<string>): seq<string>
  {
    NonCaseColumns(fileHeader) + subset
  }

  /** `len([val for val in row_data if val != ''])`; a None value counts as filled. */
  function FilledCount(header: seq<string>, row: Row): (n: nat)
    ensures n <= |header|
    decreases |header|
  {
    if header == [] then 0
    else
      FilledCount(header[..|header| - 1], row) +
        (if GetOr(row, header[|header| - 1], Text("")) != Text("") then 1 else 0)
  }

  /** The row loop: None once a row has no more filled columns than there are
      non-case-id columns (the loop breaks there), otherwise one cleaned row per row. */
  function ProfileRows(header: seq<string>, threshold: nat, rows: seq<Row>): Option<seq<seq<string>>>
    decreases |rows|
  {
    if rows == [] then Some([])
    else
      match ProfileRows(header, threshold, rows[..|rows| - 1])
      case None => None
      case Some(out) =>
        if FilledCount(header, rows[|rows| - 1]) <= threshold then None
        else Some(out + [CleanedRow(header, rows[|rows| - 1])])
  }

  /** `filter_profile_data_file` on the file's header and rows. */
  function ProfileFilter(fileHeader: seq<string>, subset: seq<string>, rows: seq<Row>): Outcome
  {
    var header := ProfileHeader(fileHeader, subset);
    match ProfileRows(header, |NonCaseColumns(fileHeader)|, rows)
    case None => Skipped
    case Some(out) => Written(header, out)
  }

  /** The profile header holds the file's non-case-id columns and the subset list. */
  lemma ProfileHeaderColumns(fileHeader: seq<string>, subset: seq<string>, x: string)
    ensures x in ProfileHeader(fileHeader, subset) <==>
      (x in fileHeader && x in NonCaseIds) || x in subset
    ensures |ProfileHeader(fileHeader, subset)| == |NonCaseColumns(fileHeader)| + |subset|
  {
  }

  /** A profile file is written exactly when every row fills more columns than there are
      non-case-id columns, and then it holds one cleaned row per input row. */
  lemma {:induction false} ProfileRowsFacts(header: seq<string>, threshold: nat, rows: seq<Row>)
    ensures ProfileRows(header, threshold, rows).Some? <==>
      forall i :: 0 <= i < |rows| ==> FilledCount(header, rows[i]) > threshold
    ensures ProfileRows(header, threshold, rows).Some? ==>
      var out := ProfileRows(header, threshold, rows).value;
      |out| == |rows| && forall i :: 0 <= i < |rows| ==> out[i] == CleanedRow(header, rows[i])
    decreases |rows|
  {
    if rows != [] {
      var n := |rows| - 1;
      var init := rows[..n];
      ProfileRowsFacts(header, threshold, init);
      assert forall i :: 0 <= i < n ==> rows[i] == init[i];
    }
  }

  /** With an empty subset list no row can pass, so a non-empty profile file is skipped. */
  lemma EmptySubsetSkipsProfile(fileHeader: seq<string>, rows: seq<Row>)
    requires rows != []
    ensures ProfileFilter(fileHeader, [], rows) == Skipped
  {
    var header := ProfileHeader(fileHeader, []);
    assert header == NonCaseColumns(fileHeader);
    ProfileRowsFacts(header, |header|, rows);
    assert FilledCount(header, rows[0]) <= |header|;
  }

  // ---------------------------------------------------------------------------------
  // Normal files (filter_study_by_subset.py:95-129)

  /** `line[column] in SAMPLE_SUBSET_LIST or line[column] in PATIENT_ID_LIST` */
  predicate Selected(subset: seq<string>, patients: seq<Cell>, v: Cell)
  {
    (v.Text? && v.s in subset) || v in patients
  }

  /** The row loop: the selected rows, cleaned, in input order; `line[column]` raises
      KeyError when the column is not in the file. */
  function NormalRows(subset: seq<string>, patients: seq<Cell>, header: seq<string>, column: string,
                      rows: seq<Row>): Result<seq<seq<string>>>
    decreases |rows|
  {
    if rows == [] then Ok([])
    else
      var out :- NormalRows(subset, patients, header, column, rows[..|rows| - 1]);
      var line := rows[|rows| - 1];
      if column !in line then Err(PythonError("KeyError"))
      else if Selected(subset, patients, line[column]) then Ok(out + [CleanedRow(header, line)])
      else Ok(out)
  }

  /** `filter_normal_data_file` on the file's header and rows: skipped when no row was
      kept (`len(filtered_data) == 1`). */
  function NormalFilter(subset: seq<string>, patients: seq<Cell>, header: seq<string>, column: string,
                        rows: seq<Row>): Result<Outcome>
  {
    var out :- NormalRows(subset, patients, header, column, rows);
    if out == [] then Ok(Skipped) else Ok(Written(header, out))
  }

  /** Whether a row is kept, the column being present. */
  function Keeps(subset: seq<string>, patients: seq<Cell>, column: string): Row -> bool
  {
    (line: Row) => column in line && Selected(subset, patients, line[column])
  }

  /** The kept rows are exactly the selected rows, in input order, each projected onto
      the header; the loop raises KeyError exactly when some row lacks the column. */
  lemma {:induction false} NormalRowsSelect(subset: seq<string>, patients: seq<Cell>, header: seq<string>,
                                            column: string, rows: seq<Row>)
    ensures NormalRows(subset, patients, header, column, rows).Err? <==>
      exists i :: 0 <= i < |rows| && column !in rows[i]
    ensures NormalRows(subset, patients, header, column, rows).Ok? ==>
      var kept := Filter(rows, Keeps(subset, patients, column));
      var out := NormalRows(subset, patients, header, column, rows).value;
      |out| == |kept| && forall k :: 0 <= k < |kept| ==> out[k] == CleanedRow(header, kept[k])
    decreases |rows|
  {
    if rows != [] {
      var n := |rows| - 1;
      var init := rows[..n];
      NormalRowsSelect(subset, patients, header, column, init);
      assert forall i :: 0 <= i < n ==> rows[i] == init[i];
      assert rows == init + [rows[n]];
    }
  }

  /** A normal file is skipped exactly when no row is selected. */
  lemma NormalSkipped(subset: seq<string>, patients: seq<Cell>, header: seq<string>, column: string,
                      rows: seq<Row>)
    requires forall i :: 0 <= i < |rows| ==> column in rows[i]
    ensures NormalFilter(subset, patients, header, column, rows).Ok?
    ensures NormalFilter(subset, patients, header, column, rows) == Ok(Skipped) <==>
      forall i :: 0 <= i < |rows| ==> !Selected(subset, patients, rows[i][column])
  {
    NormalRowsSelect(subset, patients, header, column, rows);
    var keep := Keeps(subset, patients, column);
    var kept := Filter(rows, keep);
    if kept != [] {
      assert kept[0] in kept;
      var i :| 0 <= i < |rows| && rows[i] == kept[0];
      assert Selected(subset, patients, rows[i][column]);
    } else {
      forall i | 0 <= i < |rows| ensures !Selected(subset, patients, rows[i][column]) {
        assert rows[i] in rows;
        assert rows[i] !in kept;
      }
    }
  }

  // ---------------------------------------------------------------------------------
  // The patient list (filter_study_by_subset.py:164-183)

  /** Whether a clinical row's sample is in the subset list. */
  predicate SampleInSubset(subset: seq<string>, line: Row)
    requires "SAMPLE_ID" in line
  {
    line["SAMPLE_ID"].Text? && line["SAMPLE_ID"].s in subset
  }

  /** `PATIENT_ID_LIST` as far as the loop got, and the exception that ended it. */
  datatype PatientScan = PatientScan(ids: seq<Cell>, abort: Option<Abort>)

  /** The loop of `generate_patient_subset_list`: the patient of every row whose sample is
      in the subset list is appended unless already present. `line['PATIENT_ID']` is read
      only for such rows, and a missing column raises KeyError. */
  function PatientsAfter(subset: seq<string>, patients: seq<Cell>, rows: seq<Row>): PatientScan
    decreases |rows|
  {
    if rows == [] then PatientScan(patients, None)
    else
      var before := PatientsAfter(subset, patients, rows[..|rows| - 1]);
      var line := rows[|rows| - 1];
      if before.abort.Some? then before
      else if "SAMPLE_ID" !in line then before.(abort := Some(PythonError("KeyError")))
      else if !SampleInSubset(subset, line) then before
      else if "PATIENT_ID" !in line then before.(abort := Some(PythonError("KeyError")))
      else PatientScan(AppendNew(before.ids, line["PATIENT_ID"]), None)
  }

  /** The list only grows at its end, never holds a patient twice, and gains exactly the
      patients of the rows whose sample is in the subset list. */
  lemma {:induction false} PatientsAfterFacts(subset: seq<string>, patients: seq<Cell>, rows: seq<Row>, p: Cell)
    requires NoDup(patients)
    ensures var ids := PatientsAfter(subset, patients, rows).ids;
      NoDup(ids) && |patients| <= |ids| && ids[..|patients|] == patients
    ensures PatientsAfter(subset, patients, rows).abort.None? ==>
      (p in PatientsAfter(subset, patients, rows).ids <==>
        p in patients || exists i :: 0 <= i < |rows| && SelectsPatient(subset, rows[i], p))
    decreases |rows|
  {
    if rows != [] {
      var n := |rows| - 1;
      var init := rows[..n];
      PatientsAfterFacts(subset, patients, init, p);
      assert forall i :: 0 <= i < n ==> rows[i] == init[i];
      var before := PatientsAfter(subset, patients, init);
      if before.abort.None? && "SAMPLE_ID" in rows[n] && SampleInSubset(subset, rows[n]) && "PATIENT_ID" in rows[n] {
        assert before.ids[..|patients|] == patients;
      }
    }
  }

  /** Row `line` has its sample in the subset list and names patient p. */
  predicate SelectsPatient(subset: seq<string>, line: Row, p: Cell)
  {
    "SAMPLE_ID" in line && SampleInSubset(subset, line) && "PATIENT_ID" in line && line["PATIENT_ID"] == p
  }

  /** `'data_clinical' in filename` */
  predicate IsClinical(filename: string)
  {
    Contains(filename, "data_clinical")
  }

  /** The clinical file the patient list is read from (filter_study_by_subset.py:168-175). */
  function ClinicalFile(filenames: seq<string>): Result<string>
  {
    var clinical := Filter(filenames, IsClinical);
    if clinical == [] then Err(NoClinicalFiles)
    else if "data_clinical.txt" in clinical then Ok("data_clinical.txt")
    else Ok("data_clinical_sample.txt")
  }

  /** The run stops exactly when no file name mentions data_clinical. */
  lemma ClinicalFileMissing(filenames: seq<string>)
    ensures ClinicalFile(filenames).Err? <==> forall f :: f in filenames ==> !IsClinical(f)
  {
    var clinical := Filter(filenames, IsClinical);
    if clinical != [] {
      assert clinical[0] in clinical;
    }
  }

  /** data_clinical.txt is used exactly when it is present, data_clinical_sample.txt
      whenever another file mentions data_clinical. */
  lemma ClinicalFileChoice(filenames: seq<string>)
    ensures ClinicalFile(filenames) == Ok("data_clinical.txt") <==> "data_clinical.txt" in filenames
  {
    var clinical := Filter(filenames, IsClinical);
    var name := "data_clinical.txt";
    if name in filenames {
      ClinicalTxtIsClinical();
      assert name in clinical;
    }
    assert "data_clinical_sample.txt" != name by {
      assert |"data_clinical_sample.txt"| != |name|;
    }
  }

  lemma ClinicalTxtIsClinical()
    ensures IsClinical("data_clinical.txt")
  {
    var s := "data_clinical.txt";
    var sub := "data_clinical";
    assert s[..|sub|] == sub;
  }

  // ---------------------------------------------------------------------------------
  // Dispatch (filter_study_by_subset.py:132-160)

  /** `'meta_' in filename` */
  predicate IsMeta(filename: string)
  {
    Contains(filename, "meta_")
  }

  /** What the main loop does with one file name. */
  datatype Action = SkipMeta | FilterProfile | FilterNormal(column: string) | SkipUnknown

  /** One pass of the loop of `filter_study_by_subset_main`; an emptied subset list stops
      the run for any file that is not a meta file. */
  function Dispatch(filename: string, subset: seq<string>): Result<Action>
  {
    if IsMeta(filename) then Ok(SkipMeta)
    else if subset == [] then Err(EmptySubsetList)
    else if filename in ProfileDatatypeFilenames then Ok(FilterProfile)
    else if filename in NormalDatatypeFilenames || EndsWith(filename, ".seg") then
      Ok(FilterNormal(if EndsWith(filename, ".seg") then "ID" else NormalDatatypeFilenames[filename]))
    else Ok(SkipUnknown)
  }

  /** Meta files are always skipped, whatever the subset list; otherwise an emptied
      subset list stops the run. */
  lemma DispatchStops(filename: string, subset: seq<string>)
    ensures IsMeta(filename) ==> Dispatch(filename, subset) == Ok(SkipMeta)
    ensures Dispatch(filename, subset) == Err(EmptySubsetList) <==> !IsMeta(filename) && subset == []
    ensures Dispatch(filename, subset).Err? ==> Dispatch(filename, subset) == Err(EmptySubsetList)
  {
  }

  /** A profile name goes to the profile filter, and nothing else does. */
  lemma DispatchProfile(filename: string, subset: seq<string>)
    ensures Dispatch(filename, subset) == Ok(FilterProfile) <==>
      !IsMeta(filename) && subset != [] && filename in ProfileDatatypeFilenames
  {
  }

  /** A '.seg' file is filtered on column 'ID', another known name on its mapped column,
      and every other name that is not a meta or profile file is skipped. */
  lemma DispatchNormal(filename: string, subset: seq<string>)
    requires !IsMeta(filename) && subset != [] && filename !in ProfileDatatypeFilenames
    ensures EndsWith(filename, ".seg") ==> Dispatch(filename, subset) == Ok(FilterNormal("ID"))
    ensures filename in NormalDatatypeFilenames ==>
      Dispatch(filename, subset) == Ok(FilterNormal(NormalDatatypeFilenames[filename]))
    ensures Dispatch(filename, subset) == Ok(SkipUnknown) <==>
      filename !in NormalDatatypeFilenames && !EndsWith(filename, ".seg")
  {
    if EndsWith(filename, ".seg") && filename in NormalDatatypeFilenames {
      SegNamesUseID(filename);
    }
  }

  /** The two '.seg' names of the table map to 'ID' too, so a '.seg' name's column does
      not depend on which of the two tests chose it. */
  lemma SegNamesUseID(filename: string)
    requires filename in NormalDatatypeFilenames && EndsWith(filename, ".seg")
    ensures NormalDatatypeFilenames[filename] == "ID"
  {
    assert !EndsWith("data_clinical.txt", ".seg");
    assert !EndsWith("data_clinical_patient.txt", ".seg");
    assert !EndsWith("data_clinical_sample.txt", ".seg");
    assert !EndsWith("data_mutations_extended.txt", ".seg");
    assert !EndsWith("data_timeline", ".seg");
  }

  /** The loop of `filter_study_by_subset_main` over a directory listing: the action for
      each file, in listing order, up to the first abort. */
  function Plan(filenames: seq<string>, subset: seq<string>): Result<seq<Action>>
    decreases |filenames|
  {
    if filenames == [] then Ok([])
    else
      var init :- Plan(filenames[..|filenames| - 1], subset);
      var action :- Dispatch(filenames[|filenames| - 1], subset);
      Ok(init + [action])
  }

  /** Every file gets the action Dispatch chooses for it, in listing order. */
  lemma {:induction false} PlanActions(filenames: seq<string>, subset: seq<string>)
    ensures Plan(filenames, subset).Ok? ==>
      |Plan(filenames, subset).value| == |filenames| &&
      forall i :: 0 <= i < |filenames| ==> Dispatch(filenames[i], subset) == Ok(Plan(filenames, subset).value[i])
    decreases |filenames|
  {
    if filenames != [] {
      var n := |filenames| - 1;
      var init := filenames[..n];
      PlanActions(init, subset);
      assert forall i :: 0 <= i < n ==> filenames[i] == init[i];
    }
  }

  /** The run stops exactly when the subset list is empty and some file is not a meta
      file. */
  lemma {:induction false} PlanStops(filenames: seq<string>, subset: seq<string>)
    ensures Plan(filenames, subset).Err? <==> subset == [] && exists i :: 0 <= i < |filenames| && !IsMeta(filenames[i])
    decreases |filenames|
  {
    if filenames != [] {
      var n := |filenames| - 1;
      var init := filenames[..n];
      PlanStops(init, subset);
      DispatchStops(filenames[n], subset);
      if subset == [] && exists i :: 0 <= i < |filenames| && !IsMeta(filenames[i]) {
        var i :| 0 <= i < |filenames| && !IsMeta(filenames[i]);
        if i < n {
          assert init[i] == filenames[i];
        }
      }
      if exists i :: 0 <= i < n && !IsMeta(init[i]) {
        var i :| 0 <= i < n && !IsMeta(init[i]);
        assert filenames[i] == init[i];
      }
    }
  }

  // ---------------------------------------------------------------------------------
  // The script's state

  /** The globals `SAMPLE_SUBSET_LIST` and `PATIENT_ID_LIST`. */
  class SubsetState {
    var sampleSubset: seq<string>
    var patientIds: seq<Cell>

    constructor(subset: seq<string>)
      ensures sampleSubset == subset && patientIds == []
    {
      sampleSubset := subset;
      patientIds := [];
    }

    /** The loop of `generate_patient_subset_list` over the clinical file's rows. */
    method GeneratePatientSubsetList(rows: seq<Row>) returns (abort: Option<Abort>)
      modifies this
      ensures sampleSubset == old(sampleSubset)
      ensures PatientsAfter(sampleSubset, old(patientIds), rows) == PatientScan(patientIds, abort)
    {
      var i := 0;
      while i < |rows|
        invariant 0 <= i <= |rows| && sampleSubset == old(sampleSubset)
        invariant PatientsAfter(sampleSubset, old(patientIds), rows[..i]) == PatientScan(patientIds, None)
      {
        assert rows[..i + 1][..i] == rows[..i];
        var line := rows[i];
        if "SAMPLE_ID" !in line {
          PatientAbortPersists(sampleSubset, old(patientIds), rows, i + 1);
          return Some(PythonError("KeyError"));
        }
        if line["SAMPLE_ID"].Text? && line["SAMPLE_ID"].s in sampleSubset {
          if "PATIENT_ID" !in line {
            PatientAbortPersists(sampleSubset, old(patientIds), rows, i + 1);
            return Some(PythonError("KeyError"));
          }
          if line["PATIENT_ID"] !in patientIds {
            patientIds := patientIds + [line["PATIENT_ID"]];
          }
        }
        i := i + 1;
      }
      assert rows[..i] == rows;
      return None;
    }

    /** `filter_profile_data_file` on the file's header and rows. */
    method FilterProfileDataFile(fileHeader: seq<string>, rows: seq<Row>) returns (r: Outcome)
      ensures r == ProfileFilter(fileHeader, sampleSubset, rows)
    {
      var nonCase := Filter(fileHeader, (h: string) => h in NonCaseIds);
      var nonCaseIdCount := |nonCase|;
      var subsetHeader := nonCase + sampleSubset;
      var filtered: seq<seq<string>> := [];
      var successful := true;
      var i := 0;
      while i < |rows|
        invariant 0 <= i <= |rows| && successful
        invariant ProfileRows(subsetHeader, nonCaseIdCount, rows[..i]) == Some(filtered)
      {
        assert rows[..i + 1][..i] == rows[..i];
        if FilledCount(subsetHeader, rows[i]) <= nonCaseIdCount {
          ProfileAbortPersists(subsetHeader, nonCaseIdCount, rows, i + 1);
          successful := false;
          break;
        }
        filtered := filtered + [CleanedRow(subsetHeader, rows[i])];
        i := i + 1;
      }
      if !successful {
        return Skipped;
      }
      assert rows[..i] == rows;
      return Written(subsetHeader, filtered);
    }

    /** `filter_normal_data_file` on the file's header and rows. */
    method FilterNormalDataFile(header: seq<string>, column: string, rows: seq<Row>) returns (r: Result<Outcome>)
      ensures r == NormalFilter(sampleSubset, patientIds, header, column, rows)
    {
      var filtered: seq<seq<string>> := [];
      var i := 0;
      while i < |rows|
        invariant 0 <= i <= |rows|
        invariant NormalRows(sampleSubset, patientIds, header, column, rows[..i]) == Ok(filtered)
      {
        assert rows[..i + 1][..i] == rows[..i];
        var line := rows[i];
        if column !in line {
          NormalAbortPersists(sampleSubset, patientIds, header, column, rows, i + 1);
          return Err(PythonError("KeyError"));
        }
        if (line[column].Text? && line[column].s in sampleSubset) || line[column] in patientIds {
          filtered := filtered + [CleanedRow(header, line)];
        }
        i := i + 1;
      }
      assert rows[..i] == rows;
      if |filtered| == 0 {
        return Ok(Skipped);
      }
      return Ok(Written(header, filtered));
    }
  }

  lemma {:induction false} PatientAbortPersists(subset: seq<string>, patients: seq<Cell>, rows: seq<Row>, k: int)
    requires 0 <= k <= |rows|
    requires PatientsAfter(subset, patients, rows[..k]).abort.Some?
    ensures PatientsAfter(subset, patients, rows) == PatientsAfter(subset, patients, rows[..k])
    decreases |rows| - k
  {
    if k < |rows| {
      assert rows[..k + 1][..k] == rows[..k];
      PatientAbortPersists(subset, patients, rows, k + 1);
    } else {
      assert rows[..k] == rows;
    }
  }

  lemma {:induction false} ProfileAbortPersists(header: seq<string>, threshold: nat, rows: seq<Row>, k: int)
    requires 0 <= k <= |rows|
    requires ProfileRows(header, threshold, rows[..k]).None?
    ensures ProfileRows(header, threshold, rows).None?
    decreases |rows| - k
  {
    if k < |rows| {
      assert rows[..k + 1][..k] == rows[..k];
      ProfileAbortPersists(header, threshold, rows, k + 1);
    } else {
      assert rows[..k] == rows;
    }
  }

  lemma {:induction false} NormalAbortPersists(subset: seq<string>, patients: seq<Cell>, header: seq<string>,
                                               column: string, rows: seq<Row>, k: int)
    requires 0 <= k <= |rows|
    requires NormalRows(subset, patients, header, column, rows[..k]).Err?
    ensures NormalRows(subset, patients, header, column, rows) == NormalRows(subset, patients, header, column, rows[..k])
    decreases |rows| - k
  {
    if k < |rows| {
      assert rows[..k + 1][..k] == rows[..k];
      NormalAbortPersists(subset, patients, header, column, rows, k + 1);
    } else {
      assert rows[..k] == rows;
    }
  }
}
