# Clinical data normalisation and study subsetting, modelled in Dafny

This project models two scripts of a cancer-study data pipeline.

`clinical_cleanup.py` normalises a tab-delimited clinical file against a mapping file.
The model covers:

- the rule-table builder (`generate_clinical_data_map`) and the two attribute lists it
  keeps beside the table (`NORMALIZED_ATTRIBUTE_LIST`, `POST_PROCESS_ATTRIBUTE_FILTER`);
- the classifier `get_processing_type`;
- the value resolver `normalize_attribute_data`, with its single lookup for DERIVE,
  FIX_ALL, FIX_VALUE and FIX_ATTRIBUTE and its split / map / dedupe / sort / join merge
  for MERGE;
- the header functions `get_file_header`, `get_filtered_header`, `get_normalized_header`
  and `get_header`;
- `process_datum`, `update_attribute_counts`, the row loop of `basic_clinical_cleanup`,
  the barcode-counting loop of `calculate_genomic_alterations`, and the per-sample
  normaliser `get_normalized_sample_data`.

`filter_study_by_subset.py` cuts a study down to a list of samples. The model covers its
`process_datum`, the row filters of `filter_profile_data_file` and
`filter_normal_data_file`, `generate_patient_subset_list`, the loading of the subset list,
and the choice of filter by file name in `filter_study_by_subset_main`.

Files are not read. Every operation takes the rows the tab-delimited reader would hand
over, in memory. A row is a map from column name to `Cell`. A `Cell` is either `Text(s)`
or `NoValue`; `NoValue` is the reader's `None` for a row too short to reach a column, and
also the Python `None` the resolver produces. A run that stops is an `Abort`:

- the scripts' own `sys.exit(2)` calls each have their own variant;
- an uncaught Python exception is `PythonError(kind)`.

Module-level globals that the scripts update in place are classes, each method proved
against a specification function:

- `RuleRegistry` holds `CLINICAL_DATA_MAP` and the two attribute lists;
- `AttributeCounts` holds `CLIN_ATTR_COUNTS`;
- `SampleRecord` holds one sample's data, which the normaliser rewrites;
- `SubsetState` holds `SAMPLE_SUBSET_LIST` and `PATIENT_ID_LIST`.

Python 2 dictionaries iterate in an unspecified order, and the model fixes one:

- The classifier scans the types in the order of `VALID_PROCESSING_TYPES`.
- Each normalized attribute's contributing original attributes are kept in the order in
  which mapping rows introduced them (`Sources.attrs`).

Results that hold whatever the order are stated as such: `ClassifierOrderIndependent`,
`FinishMergeSetOnly`, `FinishMergeCommutes`.

MERGE looks up the sub-value at flattened position `i` under contributor `i`
(clinical_cleanup.py:188-189). The model keeps this as written. Consequences, all proved:

- A raw value holding a '/' makes the list of sub-values longer than the list of
  contributors, and the loop fails with IndexError (`MergeAborts`, `MergeSlashAborts`).
- Whenever MERGE does succeed, its value equals that of a reference merge that pairs each
  piece with its own contributor (`MergeMatchesReference`).

Modules, one per file:

- `Values`, `Seqs`, `Text`: shared datatypes and helpers on sequences and strings:
  Python's `strip`, `split` and `join`, and ordering of strings.
- `ClinicalRules` (rules.dfy), `ClinicalResolve` (resolve.dfy), `ClinicalRecords`
  (records.dfy), `ClinicalSample` (sample.dfy), `ClinicalHeaders` (headers.dfy): the
  parts of clinical_cleanup.py.
- `StudySubset` (subset.dfy): filter_study_by_subset.py.

## Model

| member | source | states |
|---|---|---|
| ClinicalRules.AllTypesListed | clinical_cleanup.py:13 | (helper about the constant) every processing type is one of VALID_PROCESSING_TYPES |
| ClinicalRules.NamesDistinct | clinical_cleanup.py:13 | (helper about the constant) two processing types with the same spelling are the same type |
| ClinicalRules.FindNamed | clinical_cleanup.py:314 | a type found by name is in the scanned list and carries that name |
| ClinicalRules.ParseProcessingType | clinical_cleanup.py:313-314 | a recognised PROCESSING_TYPE value is the name of the type returned |
| ClinicalRules.ParseName | clinical_cleanup.py:13-14 | every processing type is recognised under its own name, as itself |
| ClinicalRules.ParseRejects | clinical_cleanup.py:314-317 | a value is rejected exactly when it is none of the nine names |
| ClinicalRules.Field | clinical_cleanup.py:319-322 | a missing column reads as 'NA'; a None field fails with AttributeError, and only it does |
| ClinicalRules.ReadRuleFields | clinical_cleanup.py:313-322 | a row reads exactly when all five fields read and its type is valid; an invalid type is reported by name; a read rule carries the stripped fields |
| ClinicalRules.PutEffect | clinical_cleanup.py:336-342 | setting one nested entry changes no other entry, keeps the order of the original attributes with a new one last, and keeps the nested maps consistent |
| ClinicalRules.AddRuleFrame | clinical_cleanup.py:324-343 | a row leaves the tables of all other processing types unchanged |
| ClinicalRules.AddRuleWellShaped | clinical_cleanup.py:324-343 | every row keeps each type's table in the shape that type builds (list, constant map, nested map) |
| ClinicalRules.AddRuleNames | clinical_cleanup.py:324-328 | a KEEP_ALL or IGNORE row appends its original attribute to its own list and to no other |
| ClinicalRules.AddRuleConstants | clinical_cleanup.py:330-333 | an ADD_ALL row overwrites the constant of its normalized attribute; other rows leave the constants alone |
| ClinicalRules.AddRuleLookup | clinical_cleanup.py:335-343 | a mapping row sets exactly table[ptype][norm][orig][origval] := normval and no other nested entry |
| ClinicalRules.AddRuleOtherType | clinical_cleanup.py:335-343 | a row of another type leaves a mapping type's nested map unchanged |
| ClinicalRules.AddRuleOwnType | clinical_cleanup.py:336-343 | a mapping row rewrites its own type's nested map at its normalized attribute only |
| ClinicalRules.ApplyRuleEffect | clinical_cleanup.py:324-354 | one row keeps both lists duplicate-free with their old entries first, adds its normalized attribute to NORMALIZED_ATTRIBUTE_LIST exactly for the adding types, and adds its original attribute to POST_PROCESS_ATTRIBUTE_FILTER exactly for renaming MERGE/FIX_ALL rows and IGNORE rows |
| ClinicalRules.ApplyAll | clinical_cleanup.py:312-354 | applying rows in order keeps the table well-shaped and both lists duplicate-free |
| ClinicalRules.BuildKeepsConsistent | clinical_cleanup.py:312-354 | a run of the builder, complete or aborted, leaves consistent collections |
| ClinicalRules.ReadAll | clinical_cleanup.py:312-322 | reading all rows yields one rule per row |
| ClinicalRules.ReadAllRows | clinical_cleanup.py:312-322 | reading succeeds exactly when every row reads, and then yields each row's own rule |
| ClinicalRules.BuildAppliesReadRules | clinical_cleanup.py:312-343 | the builder succeeds exactly when every row reads, then has applied them all in order; otherwise it stops with the first row's failure |
| ClinicalRules.BuildAt | clinical_cleanup.py:312-317 | the builder stops at an unreadable row, and otherwise applies the row and goes on |
| ClinicalRules.InvalidTypeAborts | clinical_cleanup.py:314-317 | the first row with an invalid processing type aborts the build, naming that type |
| ClinicalRules.ReadingStopsAtInvalidType | clinical_cleanup.py:314-317 | reading stops at the first row with an invalid type, with that type's name |
| ClinicalRules.AbortNamesInvalidRow | clinical_cleanup.py:314-317 | the build aborts with InvalidProcessingType only for a name some row carries and that is not valid |
| ClinicalRules.SomeRuleSplit | clinical_cleanup.py:312 | some rule of a sequence qualifies exactly when the first does or some later one does |
| ClinicalRules.NormalizedAttributeList | clinical_cleanup.py:345-348 | NORMALIZED_ATTRIBUTE_LIST keeps its old entries first, never gains a duplicate, and afterwards holds exactly the normalized attributes of the rows whose type adds one |
| ClinicalRules.AppendNewKeepsNoDup | clinical_cleanup.py:347-348 | appending only an absent attribute keeps a list duplicate-free |
| ClinicalRules.IgnoredNeverNormalized | clinical_cleanup.py:345-348 | IGNORE and ADD_GENOMIC_ALTERATIONS rows never put an attribute on NORMALIZED_ATTRIBUTE_LIST |
| ClinicalRules.PostProcessFilter | clinical_cleanup.py:350-354 | POST_PROCESS_ATTRIBUTE_FILTER keeps its old entries first, never gains a duplicate, and gains exactly the original attributes of renaming MERGE/FIX_ALL rows and of IGNORE rows |
| ClinicalRules.LookupUntouched | clinical_cleanup.py:335-343 | rows that do not write a nested entry leave its value alone |
| ClinicalRules.MappingLastWriteWins | clinical_cleanup.py:335-343 | for a mapping type the last row with a given (normalized attribute, original attribute, original value) decides the normalized value |
| ClinicalRules.AddAllLastWriteWins | clinical_cleanup.py:330-333 | the last ADD_ALL row for a normalized attribute decides its constant |
| ClinicalRules.AddAllUntouched | clinical_cleanup.py:330-333 | rows that are not ADD_ALL rows for an attribute leave its constant alone |
| ClinicalRules.NameLists | clinical_cleanup.py:324-328 | the KEEP_ALL and IGNORE lists hold exactly the original attributes of the rows of their type |
| ClinicalRules.RuleRegistry.constructor | clinical_cleanup.py:26-31 | the table and both lists start empty |
| ClinicalRules.RuleRegistry.ApplyRow | clinical_cleanup.py:324-354 | the in-place updates of one valid row leave the collections as the row's specification function gives them |
| ClinicalRules.RuleRegistry.GenerateClinicalDataMap | clinical_cleanup.py:306-354 | the loop ends in the state and with the abort the builder's specification gives, and keeps the collections consistent |
| ClinicalRules.ScanCoversAllTypes | clinical_cleanup.py:235-246 | scanning the valid types finds none exactly when no type declares the attribute, and never yields ADD_GENOMIC_ALTERATIONS |
| ClinicalRules.FirstDeclaring | clinical_cleanup.py:235-244 | a scan yields a type of the scanned list that declares the attribute, or None exactly when none of them does |
| ClinicalRules.GetProcessingType | clinical_cleanup.py:232-246 | the classifier yields a type that declares the attribute (lists test membership, maps test keys), or None exactly when no type does |
| ClinicalRules.ClassifierOrderIndependent | clinical_cleanup.py:235-246 | when exactly one type declares the attribute, every scan order finds that type |
| ClinicalResolve.RawValues | clinical_cleanup.py:175-177 | one raw value per contributing original attribute |
| ClinicalResolve.SplitValuesErr | clinical_cleanup.py:180-182 | the first MERGE loop fails exactly when a raw value is None, with AttributeError |
| ClinicalResolve.SplitValuesLength | clinical_cleanup.py:180-182 | every raw value gives at least one sub-value; exactly one each when no raw value holds '/', and then the sub-values are the raw values |
| ClinicalResolve.MergeTokensNoSlash | clinical_cleanup.py:188-192 | no token of the second MERGE loop holds '/' |
| ClinicalResolve.KeptTokensShape | clinical_cleanup.py:194-196 | the kept tokens are the distinct tokens other than 'None', strictly increasing |
| ClinicalResolve.FinishMergeShape | clinical_cleanup.py:194-201 | the merged value splits back into the increasing list of distinct tokens other than 'None', is 'NA' when only 'None' tokens are left, and never holds a 'None' token |
| ClinicalResolve.FinishMergeSetOnly | clinical_cleanup.py:194-201 | the merged value depends only on which tokens occur, not on their order or repetition |
| ClinicalResolve.FinishMergeCommutes | clinical_cleanup.py:194-201 | gathering two contributors' tokens in either order gives the same value |
| ClinicalResolve.MergeShape | clinical_cleanup.py:179-201 | a successful MERGE yields exactly the reference merge's value (FinishMerge of the per-contributor ReferenceTokens), which is a strictly increasing '/'-list without a 'None' token |
| ClinicalResolve.MergeAborts | clinical_cleanup.py:179-201 | MERGE fails with AttributeError exactly when a raw value is None, otherwise with IndexError exactly when a raw value holds '/' |
| ClinicalResolve.MergeTokensAgree | clinical_cleanup.py:188-192 | without '/' in the raw values, the as-written lookup pairs each value with its own contributor |
| ClinicalResolve.MergeMatchesReference | clinical_cleanup.py:179-201 | whenever MERGE as written succeeds, its value is that of the per-contributor reference merge |
| ClinicalResolve.MergeSlashAborts | clinical_cleanup.py:188-189 | a raw value holding '/' makes MERGE fail with IndexError |
| ClinicalResolve.MergeValues | clinical_cleanup.py:179-201 | the two MERGE loops compute the MERGE specification function |
| ClinicalResolve.NormalizedErrors | clinical_cleanup.py:171-229 | the resolver stops only with the exit for disagreeing values or with a Python exception |
| ClinicalResolve.SingleLookup | clinical_cleanup.py:204-221 | non-MERGE: exit 2 exactly when contributors' raw values differ; 'NA' stays 'NA'; a mapped value becomes its mapping; an unmapped value that is a normalized value of the first contributor passes through; anything else becomes None |
| ClinicalResolve.SingleRange | clinical_cleanup.py:212-221 | a non-MERGE value is 'NA', None, or a normalized value of a rule of the first contributor |
| ClinicalResolve.AbsentContributorsGiveNA | clinical_cleanup.py:174-229 | a sample lacking every contributor resolves to 'NA' under every mapping type |
| ClinicalResolve.MergeTokensAllNA | clinical_cleanup.py:188-192 | looking up 'NA' sub-values in rules that do not map 'NA' yields only 'NA' tokens |
| ClinicalResolve.MergeAllNA | clinical_cleanup.py:179-201 | MERGE over raw values that are all 'NA', with rules that do not map 'NA', yields 'NA' |
| ClinicalResolve.NormalizeAttributeData | clinical_cleanup.py:171-229 | the resolver computes its specification function |
| ClinicalRecords.ProcessDatumFacts | clinical_cleanup.py:84-95 | a cleaned datum is never '' nor 'N/A' and has no surrounding whitespace; None, an all-whitespace string and one that strips to 'N/A' give 'NA'; any other string gives its stripped form; cleaning is idempotent |
| ClinicalRecords.BumpedCount | clinical_cleanup.py:98-103 | one row adds one to exactly the attributes it fills and changes no other count |
| ClinicalRecords.BumpedStep | clinical_cleanup.py:101-103 | counting one more key of a row adds that key's contribution to the counts |
| ClinicalRecords.SampleFields | clinical_cleanup.py:118-124 | a cleaned sample has exactly the header's columns as keys |
| ClinicalRecords.FilledRows | clinical_cleanup.py:116-126 | no attribute is filled by more rows than there are rows |
| ClinicalRecords.CountsTally | clinical_cleanup.py:116-126 | after the loop every attribute's count grew by the number of rows filling it, including rows whose data a later row with the same id replaced |
| ClinicalRecords.CleanRowsAbort | clinical_cleanup.py:116-125 | the loop stops exactly at the first row that raises, with that row's exception |
| ClinicalRecords.CleanRowsStep | clinical_cleanup.py:116-125 | in a loop that ran to the end, the last row's cleaned data replaced whatever its sample id held |
| ClinicalRecords.SamplesAreRowIds | clinical_cleanup.py:117-125 | after a complete loop the samples are exactly the stripped ids of the rows |
| ClinicalRecords.SampleHasRow | clinical_cleanup.py:117-125 | every sample id of a complete loop is the stripped id of some row |
| ClinicalRecords.RowHasSample | clinical_cleanup.py:117-125 | every row of a complete loop has its stripped id among the samples |
| ClinicalRecords.LastRowWins | clinical_cleanup.py:117-125 | a sample holds the cleaned data of the last row with its id |
| ClinicalRecords.SamplesAreCleaned | clinical_cleanup.py:118-125 | every cleaned sample holds one cleaned datum per header column |
| ClinicalRecords.AttributeCounts.constructor | clinical_cleanup.py:11 | the counts start empty |
| ClinicalRecords.AttributeCounts.UpdateAttributeCounts | clinical_cleanup.py:98-103 | the counts gain one for each key of the row whose value is not 'NA' |
| ClinicalRecords.AttributeCounts.BasicClinicalCleanup | clinical_cleanup.py:116-126 | the loop yields the sample data and counts of the cleanup specification function, or its first exception |
| ClinicalRecords.AbortPersists | clinical_cleanup.py:116-126 | once a prefix of the rows raises, the whole loop ends with that exception |
| ClinicalRecords.Barcodes | clinical_cleanup.py:161-162 | one stripped barcode per row |
| ClinicalRecords.AlterationCountsOccurrences | clinical_cleanup.py:160-163 | each sample's count is the number of rows carrying its barcode, only occurring barcodes are counted, and the loop fails exactly when a barcode cannot be read |
| ClinicalRecords.CalculateGenomicAlterations | clinical_cleanup.py:160-163 | the counting loop computes its specification function |
| ClinicalRecords.AlterationAbortPersists | clinical_cleanup.py:160-163 | once a prefix of the rows raises, the counting loop ends with that exception |
| ClinicalSample.Project | clinical_cleanup.py:270 | one value per header entry |
| ClinicalSample.EntriesAbortPersist | clinical_cleanup.py:252-268 | once an entry stops the run, the whole loop ends with that abort |
| ClinicalSample.EntriesStep | clinical_cleanup.py:252-268 | one more entry of a loop that has not stopped either rewrites the data or stops the loop with its abort |
| ClinicalSample.EntriesLast | clinical_cleanup.py:252-268 | in a loop that ran to the end, the last entry's outcome is the final sample data |
| ClinicalSample.PrefixRan | clinical_cleanup.py:252-268 | a loop that ran to the end ran through every prefix of the header |
| ClinicalSample.EntryWritesItself | clinical_cleanup.py:252-264 | an entry writes its own attribute and nothing else; KEEP_ALL and GENOMIC_ALTERATIONS entries write nothing |
| ClinicalSample.EntryAddAll | clinical_cleanup.py:262-264 | an ADD_ALL entry writes its constant |
| ClinicalSample.EntryKept | clinical_cleanup.py:253-256 | a KEEP_ALL entry or GENOMIC_ALTERATIONS leaves the sample data as it is |
| ClinicalSample.EntryOther | clinical_cleanup.py:258-268 | an entry the classifier cannot type, or types as neither a mapping type nor ADD_ALL, stops with exit 2 |
| ClinicalSample.EntryMapping | clinical_cleanup.py:258-261 | a mapping entry writes the resolver's value or stops with the resolver's abort |
| ClinicalSample.EntryUnnormalized | clinical_cleanup.py:258-268 | an entry stops with exit 2 only when the classifier gives None or IGNORE |
| ClinicalSample.SuffixFrame | clinical_cleanup.py:252-264 | entries after a point never touch an attribute that does not occur after it |
| ClinicalSample.UntouchedStayRaw | clinical_cleanup.py:253-256 | KEEP_ALL entries and GENOMIC_ALTERATIONS come out as the raw sample values, 'NA' when absent |
| ClinicalSample.UntouchedFrame | clinical_cleanup.py:253-256 | KEEP_ALL attributes and GENOMIC_ALTERATIONS keep their raw data through the loop |
| ClinicalSample.AddAllGetsConstant | clinical_cleanup.py:262-270 | an ADD_ALL entry comes out as its constant |
| ClinicalSample.AddAllWritten | clinical_cleanup.py:262-264 | after the loop an ADD_ALL attribute of the header holds its constant |
| ClinicalSample.MappedEntryResolved | clinical_cleanup.py:258-261 | with a duplicate-free header, a mapping entry comes out as the resolver's value over the sample data as the entries before it left it |
| ClinicalSample.UntypedEntryAborts | clinical_cleanup.py:258-268 | an entry the classifier cannot type, or types IGNORE, stops the run |
| ClinicalSample.UnnormalizedCause | clinical_cleanup.py:265-268 | exit 2 is only ever raised for a header entry that is neither KEEP_ALL nor GENOMIC_ALTERATIONS and that the classifier gives None or IGNORE |
| ClinicalSample.SampleRecord.constructor | clinical_cleanup.py:249 | a record holds the sample data it is given |
| ClinicalSample.SampleRecord.NormalizeEntryInPlace | clinical_cleanup.py:253-268 | one entry rewrites the sample data in place as its specification function gives, or returns the abort and leaves the data alone |
| ClinicalSample.SampleRecord.GetNormalizedSampleData | clinical_cleanup.py:249-271 | the loop rewrites the sample data as its specification function gives and returns one value per header entry, or the abort |
| ClinicalHeaders.CaseIdsDistinct | clinical_cleanup.py:28 | (helper about the constant) the case id attributes are distinct |
| ClinicalHeaders.Columns | clinical_cleanup.py:50 | a header line has at least one column |
| ClinicalHeaders.CaseIdsFirstOrder | clinical_cleanup.py:52-55 | the present case ids come first in CASE_ID_ATTRIBUTES order, then the other columns in file order |
| ClinicalHeaders.CaseIdsFirstColumns | clinical_cleanup.py:52-55 | the file header has exactly the file's columns and, when none repeats, each exactly once |
| ClinicalHeaders.CaseIdCount | clinical_cleanup.py:52-55 | each column is counted once between the case-id part and the rest |
| ClinicalHeaders.FilterSame | clinical_cleanup.py:53 | two tests that agree on a list's elements filter it alike |
| ClinicalHeaders.FilteredHeaderFacts | clinical_cleanup.py:62 | the filtered header keeps exactly the entries with a positive count, in header order, duplicate-free when the header is |
| ClinicalHeaders.FilteredHeaderKeepsFilledColumns | clinical_cleanup.py:59-68 | over the counts of a complete cleanup loop, the filtered header keeps exactly the columns some row filled |
| ClinicalHeaders.NormalizedHeaderOrder | clinical_cleanup.py:74-80 | the normalized header is the header's entries that are normalized attributes, in header order, followed by the normalized attributes missing from the header, in list order |
| ClinicalHeaders.NormalizedHeaderFacts | clinical_cleanup.py:74-80 | the normalized header holds every normalized attribute and nothing else, and is a duplicate-free reordering of the list when both inputs are duplicate-free |
| ClinicalHeaders.GetHeaderColumns | clinical_cleanup.py:34-43 | the final header holds GENOMIC_ALTERATIONS when counted, the normalized attributes when mapping, and otherwise the file columns with a positive count |
| StudySubset.SubsetList | filter_study_by_subset.py:190 | a loaded subset list is never empty |
| StudySubset.SubsetListFacts | filter_study_by_subset.py:141-143 | every loaded id is stripped, and no file name stops the run for an emptied subset list after a load |
| StudySubset.ProcessDatumFacts | filter_study_by_subset.py:26-35 | None gives ''; a string gives its middle part with only whitespace cut from either end, '' exactly when it is all whitespace; the result has no surrounding whitespace; cleaning is idempotent |
| StudySubset.CleanedRow | filter_study_by_subset.py:109-112 | one cleaned value per header column |
| StudySubset.FilledCount | filter_study_by_subset.py:66-67 | no more filled values than header columns |
| StudySubset.ProfileHeaderColumns | filter_study_by_subset.py:53-55 | the profile header holds the file's NON_CASE_IDS columns and the subset list, and nothing else |
| StudySubset.ProfileRowsFacts | filter_study_by_subset.py:62-76 | profile filtering succeeds exactly when every row fills more columns than there are non-case-id columns, and then yields one cleaned row per input row |
| StudySubset.EmptySubsetSkipsProfile | filter_study_by_subset.py:53-72 | with an empty subset list a profile file with rows is always skipped |
| StudySubset.NormalRowsSelect | filter_study_by_subset.py:106-113 | the kept rows are exactly the rows whose case column is in the subset list or the patient list, in input order, each projected onto the header; KeyError exactly when a row lacks the column |
| StudySubset.NormalSkipped | filter_study_by_subset.py:116-119 | a normal file is skipped exactly when no row is selected |
| StudySubset.PatientsAfterFacts | filter_study_by_subset.py:180-182 | the patient list only grows at its end, never holds a duplicate, and gains exactly the patients of rows whose sample is in the subset list |
| StudySubset.ClinicalFileMissing | filter_study_by_subset.py:168-171 | the run stops exactly when no file name mentions data_clinical |
| StudySubset.ClinicalFileChoice | filter_study_by_subset.py:172-175 | data_clinical.txt is used exactly when it is present |
| StudySubset.ClinicalTxtIsClinical | filter_study_by_subset.py:168-172 | (helper about a literal) the name data_clinical.txt mentions data_clinical |
| StudySubset.DispatchStops | filter_study_by_subset.py:136-143 | meta files are skipped whatever the subset list; otherwise an empty subset list stops the run, and nothing else does |
| StudySubset.DispatchProfile | filter_study_by_subset.py:146-148 | exactly the profile file names go to the profile filter |
| StudySubset.DispatchNormal | filter_study_by_subset.py:150-160 | '.seg' files use column 'ID', other known names their mapped column, and every other name is skipped |
| StudySubset.SegNamesUseID | filter_study_by_subset.py:20-21 | (helper about the constant) the table's '.seg' names map to 'ID' as well |
| StudySubset.PlanActions | filter_study_by_subset.py:134-160 | every listed file gets the action dispatch chooses for it, in listing order |
| StudySubset.PlanStops | filter_study_by_subset.py:134-143 | the run stops exactly when the subset list is empty and some file is not a meta file |
| StudySubset.SubsetState.constructor | filter_study_by_subset.py:6-7 | the patient list starts empty beside the given subset list |
| StudySubset.SubsetState.GeneratePatientSubsetList | filter_study_by_subset.py:180-182 | the loop leaves the patient list and abort that its specification function gives, and the subset list unchanged |
| StudySubset.SubsetState.FilterProfileDataFile | filter_study_by_subset.py:50-83 | the loop with its early break computes the profile filter's specification function |
| StudySubset.SubsetState.FilterNormalDataFile | filter_study_by_subset.py:105-120 | the loop computes the normal filter's specification function |
| StudySubset.PatientAbortPersists | filter_study_by_subset.py:180-182 | once a prefix of the rows raises, the patient loop ends with that exception |
| StudySubset.ProfileAbortPersists | filter_study_by_subset.py:70-72 | once a row fails, profile filtering fails |
| StudySubset.NormalAbortPersists | filter_study_by_subset.py:106-108 | once a prefix of the rows raises, the normal filter ends with that exception |

## Left out

- File reading and writing. This covers `open`, the tab-delimited reader, the temporary
  MAF copy (clinical_cleanup.py:140-148, 154-157, 165-167), and all output writing. Every
  operation takes its rows in memory.
- Skipping lines that start with '#' (`get_header` in filter_study_by_subset.py:38-43,
  `write_temp_file`). This happens while reading the file.
- The reader's blank-line skipping and its restkey for over-long rows. No modelled
  operation reads a column outside the header.
- `print` diagnostics, `usage`, `optparse` and both `main` functions.
- `processing_type_rules` (clinical_cleanup.py:358-363). It only prints help text; the
  invalid-type exit that follows it is the `InvalidProcessingType` abort.
- The debug `print CLINICAL_DATA_MAP['MERGE']` at clinical_cleanup.py:355. It raises
  KeyError when no MERGE row was read; the model does not include that exit.
- `cleanup_clinical_data` (clinical_cleanup.py:274-303), which joins the parts together
  and writes the output. Its row order follows Python 2 dict order.
- The 'Value fixed' diagnostic of `basic_clinical_cleanup` is left out, except for the one
  way it can stop the run: a TypeError for a short row, `ShortField`.
- `os.listdir` and `os.path.isdir` in `filter_study_by_subset_main`. The directory listing
  is a parameter of `Plan`. A file name that is a sub-directory is treated like any other
  name.
- ClinicalRules.GetProcessingType: scans the types in VALID_PROCESSING_TYPES order. The
  source scans `CLINICAL_DATA_MAP.keys()` in Python 2 hash order, so when two types
  declare one attribute the model picks one particular answer. `ClassifierOrderIndependent`
  covers the case where only one type declares it.
- ClinicalResolve.MergeResult: contributors are taken in the order their first mapping row
  appeared, where the source uses dict key order. The misaligned lookup therefore meets
  the same contributors as the source only up to that order.
- A None that the resolver writes into sample data makes the final `'\t'.join` of
  `cleanup_clinical_data` raise TypeError. That join is not part of this model.
- The `new_val == None` test at clinical_cleanup.py:190 can never hold, since every rule
  value is a string. The model has no such branch.
- fmi_xml_processor.py and insert_sequenced_samples.py are not part of this model. They
  are thin wrappers over an XML library and over file I/O.

Behaviours of the code that the model keeps as written:

- KEEP_ALL rows add their normalized attribute to NORMALIZED_ATTRIBUTE_LIST
  (clinical_cleanup.py:346-348).
- An unmapped MERGE sub-value contributes the token 'NA' (clinical_cleanup.py:189).
- 'None' tokens are removed even when they are the only ones, which gives 'NA'
  (clinical_cleanup.py:195-199).
- An unmapped non-MERGE value that is not a normalized value gives None, not 'NA'
  (clinical_cleanup.py:218-221).
- The normalized header does not force the case ids first (clinical_cleanup.py:71-81).
