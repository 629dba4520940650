/** The header composition of clinical_cleanup.py: the columns of the clinical file with
    the case ids first, the columns that have data, the normalized attributes, and the
    computed GENOMIC_ALTERATIONS column. */
module ClinicalHeaders {
  import opened Values
  import opened Seqs
  import opened Text
  import opened ClinicalRecords

  /** `CASE_ID_ATTRIBUTES` (clinical_cleanup.py:28). */
  const CaseIdAttributes: seq<string> := ["PATIENT_ID", "SAMPLE_ID", "OTHER_PATIENT_ID", "OTHER_SAMPLE_ID"]

  lemma CaseIdsDistinct()
    ensures NoDup(CaseIdAttributes)
  {
  }

  /** `map(str.strip, line.split('\t'))`: the column names of a header line. */
  function Columns(line: string): (cols: seq<string>)
    ensures |cols| >= 1
  {
    var parts := Split(line, '\t');
    seq(|parts|, i requires 0 <= i < |parts| => Strip(parts[i]))
  }

  /** The column-ordering part of `get_file_header` (clinical_cleanup.py:52-56): the case
      ids present, in CASE_ID_ATTRIBUTES order, then every column not among them, in file
      order. */
  function CaseIdsFirst(cols: seq<string>): seq<string>
  {
    var header := Filter(CaseIdAttributes, (c: string) => c in cols);
    header + Filter(cols, (c: string) => c !in header)
  }

  /** `get_file_header` on the header line of the file. */
  function GetFileHeader(line: string): seq<string>
  {
    CaseIdsFirst(Columns(line))
  }

  /** The present case ids come first, in CASE_ID_ATTRIBUTES order, and every other
      column follows in file order. */
  lemma CaseIdsFirstOrder(cols: seq<string>)
    ensures CaseIdsFirst(cols) ==
      Filter(CaseIdAttributes, (c: string) => c in cols) + Filter(cols, (c: string) => c !in CaseIdAttributes)
  {
    var header := Filter(CaseIdAttributes, (c: string) => c in cols);
    FilterSame(cols, (c: string) => c !in header, (c: string) => c !in CaseIdAttributes);
  }

  /** The header has the same columns as the file and, when the file repeats no column,
      each exactly as often. */
  lemma CaseIdsFirstColumns(cols: seq<string>)
    ensures forall x :: x in CaseIdsFirst(cols) <==> x in cols
    ensures NoDup(cols) ==> multiset(CaseIdsFirst(cols)) == multiset(cols)
  {
    CaseIdsFirstOrder(cols);
    if NoDup(cols) {
      forall x ensures multiset(CaseIdsFirst(cols))[x] == multiset(cols)[x] {
        CaseIdCount(cols, x);
      }
    }
  }

  lemma CaseIdCount(cols: seq<string>, x: string)
    requires NoDup(cols)
    ensures multiset(Filter(CaseIdAttributes, (c: string) => c in cols))[x] +
      multiset(Filter(cols, (c: string) => c !in CaseIdAttributes))[x] == multiset(cols)[x]
  {
    FilterCounts(CaseIdAttributes, (c: string) => c in cols, x);
    FilterCounts(cols, (c: string) => c !in CaseIdAttributes, x);
    NoDupCountsOnce(cols, x);
    CaseIdsDistinct();
    NoDupCountsOnce(CaseIdAttributes, x);
    assert x in CaseIdAttributes <==> multiset(CaseIdAttributes)[x] > 0;
    assert x in cols <==> multiset(cols)[x] > 0;
  }

  /** Two filters that agree on the elements of s give the same list. */
  lemma {:induction false} FilterSame(s: seq<string>, f: string -> bool, g: string -> bool)
    requires forall x :: x in s ==> f(x) == g(x)
    ensures Filter(s, f) == Filter(s, g)
    decreases |s|
  {
    if s != [] {
      var init := s[..|s| - 1];
      assert forall x :: x in init ==> x in s;
      FilterSame(init, f, g);
      assert s[|s| - 1] in s;
    }
  }

  /** `get_filtered_header` (clinical_cleanup.py:59-68): the entries with a positive
      count, in header order. */
  function GetFilteredHeader(header: seq<string>, counts: map<string, nat>): seq<string>
  {
    Filter(header, (h: string) => GetOr(counts, h, 0) > 0)
  }

  /** Filtering keeps exactly the counted entries and keeps their order: filtering a
      concatenation is concatenating the filtered parts. */
  lemma FilteredHeaderFacts(header: seq<string>, more: seq<string>, counts: map<string, nat>)
    ensures forall x :: x in GetFilteredHeader(header, counts) <==> x in header && GetOr(counts, x, 0) > 0
    ensures GetFilteredHeader(header + more, counts) ==
      GetFilteredHeader(header, counts) + GetFilteredHeader(more, counts)
    ensures NoDup(header) ==> NoDup(GetFilteredHeader(header, counts))
  {
    FilterAppend(header, more, (h: string) => GetOr(counts, h, 0) > 0);
    if NoDup(header) {
      FilterNoDup(header, (h: string) => GetOr(counts, h, 0) > 0);
    }
  }

  /** Over the counts the cleaning loop produced from empty counts, the filtered header
      keeps exactly the columns that some row filled. */
  lemma FilteredHeaderKeepsFilledColumns(attrs: seq<string>, rows: seq<Row>, x: string)
    requires CleanRows(attrs, map[], rows).abort.None?
    ensures x in GetFilteredHeader(attrs, CleanRows(attrs, map[], rows).counts) <==>
      x in attrs && FilledRows(attrs, rows, x) > 0
  {
    CountsTally(attrs, map[], rows, x);
    FilteredHeaderFacts(attrs, [], CleanRows(attrs, map[], rows).counts);
  }

  /** `get_normalized_header` (clinical_cleanup.py:71-81): the entries that are
      normalized attributes, in header order, then the normalized attributes not yet
      included, in list order. */
  function GetNormalizedHeader(header: seq<string>, normalized: seq<string>): seq<string>
  {
    var newHeader := Filter(header, (h: string) => h in normalized);
    newHeader + Filter(normalized, (a: string) => a !in newHeader)
  }

  /** The normalized header lists the header's normalized attributes in header order, then
      the normalized attributes the header lacks, in list order. */
  lemma NormalizedHeaderOrder(header: seq<string>, normalized: seq<string>)
    ensures GetNormalizedHeader(header, normalized) ==
      Filter(header, (h: string) => h in normalized) + Filter(normalized, (a: string) => a !in header)
  {
    var newHeader := Filter(header, (h: string) => h in normalized);
    FilterSame(normalized, (a: string) => a !in newHeader, (a: string) => a !in header);
  }

  /** The normalized header holds every normalized attribute and nothing else; with a
      duplicate-free header and list it is a reordering of the list. */
  lemma {:induction false} NormalizedHeaderFacts(header: seq<string>, normalized: seq<string>)
    ensures forall x :: x in GetNormalizedHeader(header, normalized) <==> x in normalized
    ensures NoDup(header) && NoDup(normalized) ==>
      && NoDup(GetNormalizedHeader(header, normalized))
      && multiset(GetNormalizedHeader(header, normalized)) == multiset(normalized)
  {
    var newHeader := Filter(header, (h: string) => h in normalized);
    var ext := Filter(normalized, (a: string) => a !in newHeader);
    if NoDup(header) && NoDup(normalized) {
      FilterNoDup(header, (h: string) => h in normalized);
      FilterNoDup(normalized, (a: string) => a !in newHeader);
      forall i, j | 0 <= i < j < |newHeader + ext| ensures (newHeader + ext)[i] != (newHeader + ext)[j] {
        if i < |newHeader| && j >= |newHeader| {
          assert (newHeader + ext)[j] in ext;
        }
      }
      forall x ensures multiset(newHeader + ext)[x] == multiset(normalized)[x] {
        FilterCounts(header, (h: string) => h in normalized, x);
        FilterCounts(normalized, (a: string) => a !in newHeader, x);
        NoDupCountsOnce(header, x);
        NoDupCountsOnce(normalized, x);
        NoDupCountsOnce(newHeader, x);
        assert x in normalized <==> multiset(normalized)[x] > 0;
        assert x in newHeader <==> multiset(newHeader)[x] > 0;
      }
    }
  }

  /** `get_header` (clinical_cleanup.py:34-43) on the header line and the counts: the
      filtered file header, replaced by the normalized header when the clinical data is
      mapped, and GENOMIC_ALTERATIONS appended when alterations are counted. */
  function GetHeader(line: string, counts: map<string, nat>, normalized: seq<string>,
                     mapClinicalData: bool, calcGenomicAlterations: bool): seq<string>
  {
    var filtered := GetFilteredHeader(GetFileHeader(line), counts);
    var header := if mapClinicalData then GetNormalizedHeader(filtered, normalized) else filtered;
    if calcGenomicAlterations then header + ["GENOMIC_ALTERATIONS"] else header
  }

  /** Which columns the final header holds. */
  lemma GetHeaderColumns(line: string, counts: map<string, nat>, normalized: seq<string>,
                         mapClinicalData: bool, calcGenomicAlterations: bool, x: string)
    ensures x in GetHeader(line, counts, normalized, mapClinicalData, calcGenomicAlterations) <==>
      || (calcGenomicAlterations && x == "GENOMIC_ALTERATIONS")
      || (mapClinicalData && x in normalized)
      || (!mapClinicalData && x in Columns(line) && GetOr(counts, x, 0) > 0)
  {
    var fileHeader := GetFileHeader(line);
    CaseIdsFirstColumns(Columns(line));
    FilteredHeaderFacts(fileHeader, [], counts);
    NormalizedHeaderFacts(GetFilteredHeader(fileHeader, counts), normalized);
  }
}
