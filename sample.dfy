/** `get_normalized_sample_data` of clinical_cleanup.py: one sample's data rewritten in
    place, entry by entry of the final header, and then read out in header order. */
module ClinicalSample {
  import opened Values
  import opened Seqs
  import opened ClinicalRules
  import opened ClinicalResolve

  /** Header entries the normaliser leaves as they are: KEEP_ALL attributes and the
      computed GENOMIC_ALTERATIONS column. */
  predicate Untouched(t: RuleTable, attr: string)
  {
    attr in NamesOf(t, KeepAll) || attr == "GENOMIC_ALTERATIONS"
  }

  /** The loop body for one header entry (clinical_cleanup.py:252-269): the sample data
      after it, or why the run stops. `norm_attr in CLINICAL_DATA_MAP.get('KEEP_ALL')`
      raises TypeError when no KEEP_ALL row was read. */
  function NormalizeEntry(t: RuleTable, fields: map<string, Cell>, attr: string): Result<map<string, Cell>>
    requires WellShaped(t)
  {
    if KeepAll !in t then Err(PythonError("TypeError"))
    else if Untouched(t, attr) then Ok(fields)
    else match GetProcessingType(t, attr)
      case None => Err(UnnormalizedAttribute(attr))
      case Some(p) =>
        if p.IsMapping() then
          var v :- Normalized(t, p, attr, fields);
          Ok(fields[attr := v])
        else if p.AddAll? then Ok(fields[attr := Text(ConstantsOf(t)[attr])])
        else Err(UnnormalizedAttribute(attr))
  }

  /** The sample data so far, and the abort that ended the loop, if any. */
  datatype Progress = Progress(fields: map<string, Cell>, abort: Option<Abort>)

  /** The loop over the header entries, stopping at the first abort. */
  function NormalizeEntries(t: RuleTable, fields: map<string, Cell>, header: seq<string>): Progress
    requires WellShaped(t)
    decreases |header|
  {
    if header == [] then Progress(fields, None)
    else
      var before := NormalizeEntries(t, fields, header[..|header| - 1]);
      if before.abort.Some? then before
      else match NormalizeEntry(t, before.fields, header[|header| - 1])
        case Err(e) => before.(abort := Some(e))
        case Ok(f) => Progress(f, None)
  }

  /** `map(lambda x: sample_data.get(x, 'NA'), header)`: one value per header entry. */
  function Project(fields: map<string, Cell>, header: seq<string>): (r: seq<Cell>)
    ensures |r| == |header|
  {
    seq(|header|, i requires 0 <= i < |header| => GetOr(fields, header[i], Text("NA")))
  }

  /** `get_normalized_sample_data(sample_data, header)` (clinical_cleanup.py:249-271). */
  function NormalizedRow(t: RuleTable, fields: map<string, Cell>, header: seq<string>): Result<seq<Cell>>
    requires WellShaped(t)
  {
    var run := NormalizeEntries(t, fields, header);
    if run.abort.Some? then Err(run.abort.value) else Ok(Project(run.fields, header))
  }

  /** Once a prefix of the header aborts, the whole loop ends with that abort. */
  lemma {:induction false} EntriesAbortPersist(t: RuleTable, fields: map<string, Cell>, header: seq<string>, k: int)
    requires WellShaped(t) && 0 <= k <= |header|
    requires NormalizeEntries(t, fields, header[..k]).abort.Some?
    ensures NormalizeEntries(t, fields, header) == NormalizeEntries(t, fields, header[..k])
    decreases |header| - k
  {
    if k < |header| {
      assert header[..k + 1][..k] == header[..k];
      EntriesAbortPersist(t, fields, header, k + 1);
    } else {
      assert header[..k] == header;
    }
  }

  /** An entry writes its own attribute and nothing else. */
  lemma EntryWritesItself(t: RuleTable, fields: map<string, Cell>, attr: string, a: string)
    requires WellShaped(t) && NormalizeEntry(t, fields, attr).Ok?
    requires a != attr || Untouched(t, attr)
    ensures a in NormalizeEntry(t, fields, attr).value <==> a in fields
    ensures a in fields ==> NormalizeEntry(t, fields, attr).value[a] == fields[a]
  {
    var r := NormalizeEntry(t, fields, attr);
    if !Untouched(t, attr) {
      var p := GetProcessingType(t, attr);
      if p.value.IsMapping() {
        var v := Normalized(t, p.value, attr, fields);
        assert r == Ok(fields[attr := v.value]);
      } else {
        assert r == Ok(fields[attr := Text(ConstantsOf(t)[attr])]);
      }
    }
  }

  /** An ADD_ALL entry writes its constant. */
  lemma EntryAddAll(t: RuleTable, fields: map<string, Cell>, attr: string)
    requires WellShaped(t) && KeepAll in t && !Untouched(t, attr)
    requires GetProcessingType(t, attr) == Some(AddAll)
    ensures attr in ConstantsOf(t)
    ensures NormalizeEntry(t, fields, attr) == Ok(fields[attr := Text(ConstantsOf(t)[attr])])
  {
  }

  /** A mapping entry writes the resolver's value, or stops with the resolver's abort. */
  lemma EntryMapping(t: RuleTable, fields: map<string, Cell>, attr: string, p: ProcessingType)
    requires WellShaped(t) && KeepAll in t && !Untouched(t, attr)
    requires GetProcessingType(t, attr) == Some(p) && p.IsMapping()
    ensures var v := Normalized(t, p, attr, fields);
      NormalizeEntry(t, fields, attr) == if v.Ok? then Ok(fields[attr := v.value]) else Err(v.error)
  {
  }

  /** A KEEP_ALL entry or GENOMIC_ALTERATIONS leaves the sample data as it is. */
  lemma EntryKept(t: RuleTable, fields: map<string, Cell>, attr: string)
    requires WellShaped(t) && KeepAll in t && Untouched(t, attr)
    ensures NormalizeEntry(t, fields, attr) == Ok(fields)
  {
  }

  /** An entry the classifier cannot type, or types as neither a mapping type nor
      ADD_ALL, stops with exit status 2. */
  lemma EntryOther(t: RuleTable, fields: map<string, Cell>, attr: string)
    requires WellShaped(t) && KeepAll in t && !Untouched(t, attr)
    requires GetProcessingType(t, attr).Some? ==>
      !GetProcessingType(t, attr).value.IsMapping() && !GetProcessingType(t, attr).value.AddAll?
    ensures NormalizeEntry(t, fields, attr) == Err(UnnormalizedAttribute(attr))
  {
  }

  /** The last entry of a loop that ran to the end: the entries before it ran too, and
      its own outcome is the final sample data. */
  lemma EntriesLast(t: RuleTable, fields: map<string, Cell>, header: seq<string>)
    requires WellShaped(t) && header != [] && NormalizeEntries(t, fields, header).abort.None?
    ensures KeepAll in t
    ensures var before := NormalizeEntries(t, fields, header[..|header| - 1]);
      var e := NormalizeEntry(t, before.fields, header[|header| - 1]);
      before.abort.None? && e.Ok? && NormalizeEntries(t, fields, header).fields == e.value
  {
  }

  /** One more entry of a loop that has not stopped: its outcome decides the next state. */
  lemma EntriesStep(t: RuleTable, fields: map<string, Cell>, header: seq<string>, i: int)
    requires WellShaped(t) && 0 <= i < |header|
    requires NormalizeEntries(t, fields, header[..i]).abort.None?
    ensures var before := NormalizeEntries(t, fields, header[..i]).fields;
      var e := NormalizeEntry(t, before, header[i]);
      NormalizeEntries(t, fields, header[..i + 1]) ==
        if e.Ok? then Progress(e.value, None) else Progress(before, Some(e.error))
  {
    assert header[..i + 1][..i] == header[..i];
  }

  /** An entry stops with exit status 2 only when the classifier gives None or IGNORE. */
  lemma EntryUnnormalized(t: RuleTable, fields: map<string, Cell>, attr: string, a: string)
    requires WellShaped(t) && NormalizeEntry(t, fields, attr) == Err(UnnormalizedAttribute(a))
    ensures a == attr && !Untouched(t, a)
    ensures GetProcessingType(t, a).None? || GetProcessingType(t, a) == Some(Ignore)
  {
    var p := GetProcessingType(t, attr);
    if KeepAll in t && !Untouched(t, attr) && p.Some? && p.value.IsMapping() {
      EntryMapping(t, fields, attr, p.value);
      NormalizedErrors(t, p.value, attr, fields);
    }
  }

  /** Entries after position k never touch an attribute that does not occur after k. */
  lemma {:induction false} SuffixFrame(t: RuleTable, fields: map<string, Cell>, header: seq<string>, k: int, a: string)
    requires WellShaped(t) && 0 <= k <= |header|
    requires NormalizeEntries(t, fields, header).abort.None?
    requires a !in header[k..]
    ensures NormalizeEntries(t, fields, header[..k]).abort.None?
    ensures var full := NormalizeEntries(t, fields, header).fields;
      var part := NormalizeEntries(t, fields, header[..k]).fields;
      (a in full <==> a in part) && (a in part ==> full[a] == part[a])
    decreases |header|
  {
    if k == |header| {
      assert header[..k] == header;
    } else {
      var n := |header| - 1;
      var init := header[..n];
      assert header[n] in header[k..];
      assert init[..k] == header[..k];
      assert init[k..] == header[k..n];
      SuffixFrame(t, fields, init, k, a);
      EntryWritesItself(t, NormalizeEntries(t, fields, init).fields, header[n], a);
    }
  }

  /** KEEP_ALL entries and GENOMIC_ALTERATIONS come out as the raw sample values, 'NA'
      when the sample lacks them. */
  lemma {:induction false} UntouchedStayRaw(t: RuleTable, fields: map<string, Cell>, header: seq<string>, i: int)
    requires WellShaped(t) && NormalizedRow(t, fields, header).Ok?
    requires 0 <= i < |header| && Untouched(t, header[i])
    ensures NormalizedRow(t, fields, header).value[i] == GetOr(fields, header[i], Text("NA"))
  {
    UntouchedFrame(t, fields, header, header[i]);
  }

  lemma {:induction false} UntouchedFrame(t: RuleTable, fields: map<string, Cell>, header: seq<string>, a: string)
    requires WellShaped(t) && NormalizeEntries(t, fields, header).abort.None?
    requires Untouched(t, a)
    ensures var out := NormalizeEntries(t, fields, header).fields;
      (a in out <==> a in fields) && (a in fields ==> out[a] == fields[a])
    decreases |header|
  {
    if header != [] {
      var n := |header| - 1;
      UntouchedFrame(t, fields, header[..n], a);
      EntryWritesItself(t, NormalizeEntries(t, fields, header[..n]).fields, header[n], a);
    }
  }

  /** An ADD_ALL entry comes out as its constant. */
  lemma {:induction false} AddAllGetsConstant(t: RuleTable, fields: map<string, Cell>, header: seq<string>, i: int)
    requires WellShaped(t) && NormalizedRow(t, fields, header).Ok?
    requires 0 <= i < |header| && !Untouched(t, header[i]) && GetProcessingType(t, header[i]) == Some(AddAll)
    ensures header[i] in ConstantsOf(t)
    ensures NormalizedRow(t, fields, header).value[i] == Text(ConstantsOf(t)[header[i]])
  {
    AddAllWritten(t, fields, header, header[i]);
  }

  lemma {:induction false} AddAllWritten(t: RuleTable, fields: map<string, Cell>, header: seq<string>, a: string)
    requires WellShaped(t) && NormalizeEntries(t, fields, header).abort.None?
    requires a in header && !Untouched(t, a) && GetProcessingType(t, a) == Some(AddAll)
    ensures a in ConstantsOf(t)
    ensures var out := NormalizeEntries(t, fields, header).fields;
      a in out && out[a] == Text(ConstantsOf(t)[a])
    decreases |header|
  {
    var n := |header| - 1;
    var init := header[..n];
    EntriesLast(t, fields, header);
    var before := NormalizeEntries(t, fields, init);
    if header[n] == a {
      EntryAddAll(t, before.fields, a);
    } else {
      assert a in init by {
        var j :| 0 <= j < |header| && header[j] == a;
        assert init[j] == a;
      }
      AddAllWritten(t, fields, init, a);
      EntryWritesItself(t, before.fields, header[n], a);
    }
  }

  /** With a duplicate-free header, a mapping entry comes out as the value the resolver
      computes from the sample data as the entries before it left it. */
  lemma MappedEntryResolved(t: RuleTable, fields: map<string, Cell>, header: seq<string>, i: int, p: ProcessingType)
    requires WellShaped(t) && NormalizedRow(t, fields, header).Ok? && NoDup(header)
    requires 0 <= i < |header| && !Untouched(t, header[i]) && GetProcessingType(t, header[i]) == Some(p)
    requires p.IsMapping()
    ensures var before := NormalizeEntries(t, fields, header[..i]).fields;
      && Normalized(t, p, header[i], before).Ok?
      && NormalizedRow(t, fields, header).value[i] == Normalized(t, p, header[i], before).value
  {
    var a := header[i];
    assert a !in header[i + 1..];
    SuffixFrame(t, fields, header, i + 1, a);
    PrefixRan(t, fields, header, i);
    EntriesStep(t, fields, header, i);
    var before := NormalizeEntries(t, fields, header[..i]);
    EntryMapping(t, before.fields, a, p);
  }

  /** A loop that ran to the end ran through every prefix of the header. */
  lemma PrefixRan(t: RuleTable, fields: map<string, Cell>, header: seq<string>, k: int)
    requires WellShaped(t) && 0 <= k <= |header| && NormalizeEntries(t, fields, header).abort.None?
    ensures NormalizeEntries(t, fields, header[..k]).abort.None?
  {
    if NormalizeEntries(t, fields, header[..k]).abort.Some? {
      EntriesAbortPersist(t, fields, header, k);
    }
  }

  /** An entry that no table declares, or that only IGNORE declares, stops the run. */
  lemma {:induction false} UntypedEntryAborts(t: RuleTable, fields: map<string, Cell>, header: seq<string>, i: int)
    requires WellShaped(t) && 0 <= i < |header| && !Untouched(t, header[i])
    requires GetProcessingType(t, header[i]).None? || GetProcessingType(t, header[i]) == Some(Ignore)
    ensures NormalizedRow(t, fields, header).Err?
  {
    if NormalizeEntries(t, fields, header[..i]).abort.Some? {
      EntriesAbortPersist(t, fields, header, i);
    } else {
      EntriesStep(t, fields, header, i);
      if KeepAll in t {
        EntryOther(t, NormalizeEntries(t, fields, header[..i]).fields, header[i]);
      }
      EntriesAbortPersist(t, fields, header, i + 1);
    }
  }

  /** Exit status 2 for an entry is only ever raised for an entry the classifier could not
      type, or typed IGNORE. */
  lemma {:induction false} UnnormalizedCause(t: RuleTable, fields: map<string, Cell>, header: seq<string>, a: string)
    requires WellShaped(t) && NormalizedRow(t, fields, header) == Err(UnnormalizedAttribute(a))
    ensures a in header && !Untouched(t, a)
    ensures GetProcessingType(t, a).None? || GetProcessingType(t, a) == Some(Ignore)
    decreases |header|
  {
    var n := |header| - 1;
    var init := header[..n];
    var before := NormalizeEntries(t, fields, init);
    if before.abort.Some? {
      UnnormalizedCause(t, fields, init, a);
    } else {
      assert NormalizeEntry(t, before.fields, header[n]) == Err(UnnormalizedAttribute(a));
      EntryUnnormalized(t, before.fields, header[n], a);
    }
  }

  /** A sample record whose data `get_normalized_sample_data` rewrites in place. */
  class SampleRecord {
    var fields: map<string, Cell>

    constructor(data: map<string, Cell>)
      ensures fields == data
    {
      fields := data;
    }

    /** The loop body for one header entry (clinical_cleanup.py:253-268): the sample data
        is rewritten in place, or the abort is returned and the data left as it was. */
    method NormalizeEntryInPlace(t: RuleTable, attr: string) returns (abort: Option<Abort>)
      requires WellShaped(t)
      modifies this
      ensures var e := NormalizeEntry(t, old(fields), attr);
        && (e.Ok? ==> abort.None? && fields == e.value)
        && (e.Err? ==> abort == Some(e.error) && fields == old(fields))
    {
      if KeepAll !in t {
        return Some(PythonError("TypeError"));
      }
      if attr in NamesOf(t, KeepAll) || attr == "GENOMIC_ALTERATIONS" {
        EntryKept(t, fields, attr);
        return None;
      }
      var ptype := GetProcessingType(t, attr);
      if ptype.Some? && ptype.value.IsMapping() {
        EntryMapping(t, fields, attr, ptype.value);
        var v := NormalizeAttributeData(t, ptype.value, attr, fields);
        if v.Err? {
          return Some(v.error);
        }
        fields := fields[attr := v.value];
        return None;
      } else if ptype == Some(AddAll) {
        EntryAddAll(t, fields, attr);
        fields := fields[attr := Text(ConstantsOf(t)[attr])];
        return None;
      } else {
        EntryOther(t, fields, attr);
        return Some(UnnormalizedAttribute(attr));
      }
    }

    /** `get_normalized_sample_data` (clinical_cleanup.py:249-271). */
    method GetNormalizedSampleData(t: RuleTable, header: seq<string>) returns (r: Result<seq<Cell>>)
      requires WellShaped(t)
      modifies this
      ensures fields == NormalizeEntries(t, old(fields), header).fields
      ensures r == NormalizedRow(t, old(fields), header)
    {
      ghost var start := fields;
      var i := 0;
      while i < |header|
        invariant 0 <= i <= |header|
        invariant NormalizeEntries(t, start, header[..i]) == Progress(fields, None)
      {
        EntriesStep(t, start, header, i);
        var abort := NormalizeEntryInPlace(t, header[i]);
        if abort.Some? {
          assert NormalizeEntries(t, start, header[..i + 1]) == Progress(fields, abort);
          EntriesAbortPersist(t, start, header, i + 1);
          return Err(abort.value);
        }
        assert NormalizeEntries(t, start, header[..i + 1]) == Progress(fields, None);
        i := i + 1;
      }
      assert header[..i] == header;
      return Ok(Project(fields, header));
    }
  }
}
