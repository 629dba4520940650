/** The rule table of clinical_cleanup.py: the mapping rows, the table they are folded
    into (`CLINICAL_DATA_MAP`), the two attribute lists kept beside it
    (`NORMALIZED_ATTRIBUTE_LIST`, `POST_PROCESS_ATTRIBUTE_FILTER`), and the classifier
    that finds which processing type governs a normalized attribute. */
module ClinicalRules {
  import opened Values
  import opened Seqs
  import opened Text

  datatype ProcessingType =
    | KeepAll | Ignore | Merge | Derive | FixAll | FixValue | FixAttribute | AddAll
    | AddGenomicAlterations
  {
    /** The spelling used in the PROCESSING_TYPE column. */
    function Name(): string
    {
      match this
      case KeepAll => "KEEP_ALL"
      case Ignore => "IGNORE"
      case Merge => "MERGE"
      case Derive => "DERIVE"
      case FixAll => "FIX_ALL"
      case FixValue => "FIX_VALUE"
      case FixAttribute => "FIX_ATTRIBUTE"
      case AddAll => "ADD_ALL"
      case AddGenomicAlterations => "ADD_GENOMIC_ALTERATIONS"
    }

    /** The five types whose rules are nested value maps. */
    predicate IsMapping()
    {
      Merge? || Derive? || FixAll? || FixValue? || FixAttribute?
    }

    /** The types whose rows add their normalized attribute to NORMALIZED_ATTRIBUTE_LIST. */
    predicate AddsNormalized()
    {
      !Ignore? && !AddGenomicAlterations?
    }
  }

  /** `VALID_PROCESSING_TYPES`, in the order the source lists them. */
  const ValidProcessingTypes: seq<ProcessingType> :=
    [KeepAll, Ignore, Merge, Derive, FixAll, FixValue, FixAttribute, AddAll, AddGenomicAlterations]

  lemma AllTypesListed(p: ProcessingType)
    ensures p in ValidProcessingTypes
  {
    match p
    case KeepAll => assert ValidProcessingTypes[0] == p;
    case Ignore => assert ValidProcessingTypes[1] == p;
    case Merge => assert ValidProcessingTypes[2] == p;
    case Derive => assert ValidProcessingTypes[3] == p;
    case FixAll => assert ValidProcessingTypes[4] == p;
    case FixValue => assert ValidProcessingTypes[5] == p;
    case FixAttribute => assert ValidProcessingTypes[6] == p;
    case AddAll => assert ValidProcessingTypes[7] == p;
    case AddGenomicAlterations => assert ValidProcessingTypes[8] == p;
  }

  lemma EveryTypeListed()
    ensures forall p :: p in ValidProcessingTypes
  {
    forall p ensures p in ValidProcessingTypes { AllTypesListed(p); }
  }

  /** Different types are spelled differently. */
  lemma NamesDistinct(p: ProcessingType, q: ProcessingType)
    requires p.Name() == q.Name()
    ensures p == q
  {
  }

  /** The first type of `types` spelled s. */
  function FindNamed(s: string, types: seq<ProcessingType>): (r: Option<ProcessingType>)
    ensures r.Some? ==> r.value in types && r.value.Name() == s
    decreases |types|
  {
    if types == [] then None
    else if types[0].Name() == s then Some(types[0])
    else FindNamed(s, types[1..])
  }

  /** The `ptype not in VALID_PROCESSING_TYPES` test (clinical_cleanup.py:314-317),
      returning the type that matched. */
  function ParseProcessingType(s: string): (r: Option<ProcessingType>)
    ensures r.Some? ==> r.value.Name() == s
  {
    FindNamed(s, ValidProcessingTypes)
  }

  /** Every processing type is recognised under its own name, and only a type's name
      is recognised. */
  lemma ParseName(p: ProcessingType)
    ensures ParseProcessingType(p.Name()) == Some(p)
  {
    AllTypesListed(p);
    FindNamedHits(p.Name(), ValidProcessingTypes, p);
    var r := ParseProcessingType(p.Name());
    NamesDistinct(p, r.value);
  }

  lemma {:induction false} FindNamedHits(s: string, types: seq<ProcessingType>, p: ProcessingType)
    requires p in types && p.Name() == s
    ensures FindNamed(s, types).Some?
    decreases |types|
  {
    if types[0] != p && types[0].Name() != s {
      FindNamedHits(s, types[1..], p);
    }
  }

  lemma {:induction false} FindNamedMisses(s: string, types: seq<ProcessingType>, p: ProcessingType)
    requires FindNamed(s, types).None? && p in types
    ensures p.Name() != s
    decreases |types|
  {
    if types[0] != p {
      FindNamedMisses(s, types[1..], p);
    }
  }

  lemma ParseRejects(s: string)
    ensures ParseProcessingType(s).None? <==> forall q: ProcessingType :: q.Name() != s
  {
    if ParseProcessingType(s).None? {
      forall q: ProcessingType ensures q.Name() != s {
        AllTypesListed(q);
        FindNamedMisses(s, ValidProcessingTypes, q);
      }
    }
  }

  /** A row of the mapping file as the CSV reader yields it, restricted to the five
      columns the builder reads: None when the file has no such column, otherwise the
      field (NoValue for a row too short to reach it). */
  datatype MapRow = MapRow(
    processingType: Option<Cell>, originalAttribute: Option<Cell>, originalValue: Option<Cell>,
    normalizedAttribute: Option<Cell>, normalizedValue: Option<Cell>)

  /** `line.get(column, 'NA').strip()`: a missing column reads as "NA"; a None field
      (a short row) has no `strip` and raises AttributeError. */
  function Field(f: Option<Cell>): (r: Result<string>)
    ensures r.Err? <==> f == Some(NoValue)
    ensures f.None? ==> r == Ok("NA")
  {
    match f
    case None => Ok("NA")
    case Some(Text(s)) => Ok(Strip(s))
    case Some(NoValue) => Err(PythonError("AttributeError"))
  }

  datatype MappingRule = MappingRule(
    ptype: ProcessingType, origAttr: string, origValue: string, normAttr: string, normValue: string)

  /** Reads one mapping row (clinical_cleanup.py:313-322): the processing type first,
      rejected with exit status 2 unless it is valid, then the four other columns. */
  function ReadRule(row: MapRow): Result<MappingRule>
  {
    var name :- Field(row.processingType);
    match ParseProcessingType(name)
    case None => Err(InvalidProcessingType(name))
    case Some(p) =>
      var origAttr :- Field(row.originalAttribute);
      var origValue :- Field(row.originalValue);
      var normAttr :- Field(row.normalizedAttribute);
      var normValue :- Field(row.normalizedValue);
      Ok(MappingRule(p, origAttr, origValue, normAttr, normValue))
  }

  /** A row reads exactly when its five fields do and its type is valid; an invalid type
      is reported by name; a read row carries the stripped fields. */
  lemma ReadRuleFields(row: MapRow)
    ensures ReadRule(row).Ok? <==>
      && Field(row.processingType).Ok?
      && ParseProcessingType(Field(row.processingType).value).Some?
      && Field(row.originalAttribute).Ok? && Field(row.originalValue).Ok?
      && Field(row.normalizedAttribute).Ok? && Field(row.normalizedValue).Ok?
    ensures ReadRule(row).Err? && ReadRule(row).error.InvalidProcessingType? <==> InvalidTypeRow(row)
    ensures InvalidTypeRow(row) ==>
      ReadRule(row) == Err(InvalidProcessingType(Field(row.processingType).value))
    ensures ReadRule(row).Ok? ==>
      && Field(row.processingType) == Ok(ReadRule(row).value.ptype.Name())
      && ReadRule(row).value.origAttr == Field(row.originalAttribute).value
      && ReadRule(row).value.origValue == Field(row.originalValue).value
      && ReadRule(row).value.normAttr == Field(row.normalizedAttribute).value
      && ReadRule(row).value.normValue == Field(row.normalizedValue).value
  {
  }

  /** A row whose processing type reads but is not one of the valid names. */
  predicate InvalidTypeRow(row: MapRow)
  {
    Field(row.processingType).Ok? && ParseProcessingType(Field(row.processingType).value).None?
  }

  /** The rules of one normalized attribute under a mapping type: original attribute ->
      original value -> normalized value. `attrs` is the key order of the Python dict,
      fixed here as the order in which rows introduced each original attribute. */
  datatype Sources = Sources(attrs: seq<string>, maps: map<string, map<string, string>>)

  const NoSources := Sources([], map[])

  ghost predicate SourcesValid(src: Sources)
  {
    NoDup(src.attrs) && forall a :: a in src.attrs <==> a in src.maps
  }

  /** The normalized value for (original attribute, original value), if one is mapped. */
  function MappedIn(src: Sources, orig: string, origValue: string): Option<string>
  {
    if orig in src.maps && origValue in src.maps[orig] then Some(src.maps[orig][origValue]) else None
  }

  /** `orig_attr_data[orig_val] = norm_val` with the levels created on demand. */
  function Put(src: Sources, orig: string, origValue: string, normValue: string): Sources
  {
    var m := GetOr(src.maps, orig, map[]);
    var attrs := if orig in src.maps then src.attrs else src.attrs + [orig];
    Sources(attrs, src.maps[orig := m[origValue := normValue]])
  }

  /** Put sets one entry and changes no other, keeps the contributors' order with a new
      contributor last, and keeps the Sources consistent. */
  lemma PutEffect(src: Sources, orig: string, origValue: string, normValue: string)
    ensures var r := Put(src, orig, origValue, normValue);
      && (SourcesValid(src) ==> SourcesValid(r))
      && |src.attrs| <= |r.attrs| && r.attrs[..|src.attrs|] == src.attrs
      && forall a, v :: MappedIn(r, a, v) == if a == orig && v == origValue then Some(normValue) else MappedIn(src, a, v)
  {
    assert SourcesValid(src) && orig !in src.maps ==> orig !in src.attrs;
  }

  /** What `CLINICAL_DATA_MAP[ptype]` holds. */
  datatype TypeTable =
    | Names(names: seq<string>)
    | Constants(values: map<string, string>)
    | Nested(rules: map<string, Sources>)

  /** `CLINICAL_DATA_MAP`: a type is a key once a row of that type has been read. */
  type RuleTable = map<ProcessingType, TypeTable>

  /** Each type holds the shape its rows build, and every Sources is consistent. */
  ghost predicate WellShaped(t: RuleTable)
  {
    forall p :: p in t ==>
      match t[p]
      case Names(_) => p.KeepAll? || p.Ignore?
      case Constants(_) => p.AddAll?
      case Nested(rules) => p.IsMapping() && forall n :: n in rules ==> SourcesValid(rules[n])
  }

  /** The list of a KEEP_ALL or IGNORE type; empty when the type has no rows. */
  function NamesOf(t: RuleTable, p: ProcessingType): seq<string>
  {
    if p in t && t[p].Names? then t[p].names else []
  }

  function ConstantsOf(t: RuleTable): map<string, string>
  {
    if AddAll in t && t[AddAll].Constants? then t[AddAll].values else map[]
  }

  function NestedOf(t: RuleTable, p: ProcessingType): map<string, Sources>
  {
    if p in t && t[p].Nested? then t[p].rules else map[]
  }

  /** `CLINICAL_DATA_MAP[p][norm][orig][origValue]`, if present. */
  function Lookup(t: RuleTable, p: ProcessingType, norm: string, orig: string, origValue: string): Option<string>
  {
    var rules := NestedOf(t, p);
    if norm in rules then MappedIn(rules[norm], orig, origValue) else None
  }

  /** The table update of one valid row (clinical_cleanup.py:324-343): it changes the
      table of its own type only, appending for KEEP_ALL and IGNORE, overwriting for
      ADD_ALL and setting one nested entry for the mapping types. */
  function AddRule(t: RuleTable, r: MappingRule): RuleTable
  {
    match r.ptype
    case KeepAll => t[KeepAll := Names(NamesOf(t, KeepAll) + [r.origAttr])]
    case Ignore => t[Ignore := Names(NamesOf(t, Ignore) + [r.origAttr])]
    case AddAll => t[AddAll := Constants(ConstantsOf(t)[r.normAttr := r.normValue])]
    case AddGenomicAlterations => t
    case _ =>
      var rules := NestedOf(t, r.ptype);
      var src := GetOr(rules, r.normAttr, NoSources);
      t[r.ptype := Nested(rules[r.normAttr := Put(src, r.origAttr, r.origValue, r.normValue)])]
  }

  /** A row leaves the tables of the other types alone. */
  lemma AddRuleFrame(t: RuleTable, r: MappingRule, p: ProcessingType)
    requires p != r.ptype
    ensures p in AddRule(t, r) <==> p in t
    ensures p in t ==> AddRule(t, r)[p] == t[p]
  {
  }

  /** Every row keeps each type's table in the shape that type builds. */
  lemma AddRuleWellShaped(t: RuleTable, r: MappingRule)
    requires WellShaped(t)
    ensures WellShaped(AddRule(t, r))
  {
    var t' := AddRule(t, r);
    forall p | p in t'
      ensures match t'[p]
        case Names(_) => p.KeepAll? || p.Ignore?
        case Constants(_) => p.AddAll?
        case Nested(rules) => p.IsMapping() && forall n :: n in rules ==> SourcesValid(rules[n])
    {
      if p != r.ptype {
        AddRuleFrame(t, r, p);
      } else if r.ptype.IsMapping() {
        var rules := NestedOf(t, r.ptype);
        var src := GetOr(rules, r.normAttr, NoSources);
        PutEffect(src, r.origAttr, r.origValue, r.normValue);
      }
    }
  }

  /** A KEEP_ALL or IGNORE row appends its original attribute to its own type's list and
      leaves the other lists alone; a KEEP_ALL row makes KEEP_ALL a key of the table. */
  lemma AddRuleNames(t: RuleTable, r: MappingRule, p: ProcessingType)
    requires p.KeepAll? || p.Ignore?
    ensures NamesOf(AddRule(t, r), p) == if r.ptype == p then NamesOf(t, p) + [r.origAttr] else NamesOf(t, p)
    ensures r.ptype.KeepAll? ==> KeepAll in AddRule(t, r)
  {
  }

  /** ADD_ALL rows overwrite the constant of their normalized attribute. */
  lemma AddRuleConstants(t: RuleTable, r: MappingRule)
    ensures ConstantsOf(AddRule(t, r)) == if r.ptype.AddAll? then ConstantsOf(t)[r.normAttr := r.normValue] else ConstantsOf(t)
  {
  }

  /** A mapping row sets exactly one nested entry,
      `CLINICAL_DATA_MAP[ptype][norm][orig][origval] := normval`. */
  lemma AddRuleLookup(t: RuleTable, r: MappingRule, p: ProcessingType, n: string, o: string, v: string)
    requires p.IsMapping()
    ensures Lookup(AddRule(t, r), p, n, o, v) ==
      (if (p, n, o, v) == (r.ptype, r.normAttr, r.origAttr, r.origValue)
       then Some(r.normValue) else Lookup(t, p, n, o, v))
  {
    if p != r.ptype {
      AddRuleOtherType(t, r, p);
    } else {
      var rules := NestedOf(t, p);
      var src := GetOr(rules, r.normAttr, NoSources);
      var src' := Put(src, r.origAttr, r.origValue, r.normValue);
      AddRuleOwnType(t, r);
      PutEffect(src, r.origAttr, r.origValue, r.normValue);
      if n == r.normAttr {
        assert MappedIn(src', o, v) == if o == r.origAttr && v == r.origValue then Some(r.normValue) else MappedIn(src, o, v);
      }
    }
  }

  lemma AddRuleOtherType(t: RuleTable, r: MappingRule, p: ProcessingType)
    requires p != r.ptype
    ensures NestedOf(AddRule(t, r), p) == NestedOf(t, p)
  {
    AddRuleFrame(t, r, p);
  }

  lemma AddRuleOwnType(t: RuleTable, r: MappingRule)
    requires r.ptype.IsMapping()
    ensures var rules := NestedOf(t, r.ptype);
      NestedOf(AddRule(t, r), r.ptype) ==
        rules[r.normAttr := Put(GetOr(rules, r.normAttr, NoSources), r.origAttr, r.origValue, r.normValue)]
  {
  }

  /** Whether a row puts its original attribute on POST_PROCESS_ATTRIBUTE_FILTER
      (clinical_cleanup.py:351-354). */
  predicate Suppresses(r: MappingRule)
  {
    ((r.ptype.Merge? || r.ptype.FixAll?) && r.origAttr != r.normAttr) || r.ptype.Ignore?
  }

  /** The three module-level collections the builder fills. */
  datatype BuildState = BuildState(table: RuleTable, normalized: seq<string>, filter: seq<string>)

  const Initial := BuildState(map[], [], [])

  ghost predicate Consistent(st: BuildState)
  {
    WellShaped(st.table) && NoDup(st.normalized) && NoDup(st.filter)
  }

  /** The effect of one valid row on the three collections. */
  function ApplyRule(st: BuildState, r: MappingRule): BuildState
  {
    BuildState(
      AddRule(st.table, r),
      if r.ptype.AddsNormalized() then AppendNew(st.normalized, r.normAttr) else st.normalized,
      if Suppresses(r) then AppendNew(st.filter, r.origAttr) else st.filter)
  }

  /** One row keeps the collections consistent, adds its normalized attribute to
      NORMALIZED_ATTRIBUTE_LIST when its type adds one, adds its original attribute to
      POST_PROCESS_ATTRIBUTE_FILTER when it suppresses it, and keeps both lists' old
      entries first. */
  lemma ApplyRuleEffect(st: BuildState, r: MappingRule)
    ensures var st' := ApplyRule(st, r);
      && (Consistent(st) ==> Consistent(st'))
      && (forall x :: x in st'.normalized <==> x in st.normalized || (r.ptype.AddsNormalized() && x == r.normAttr))
      && (forall x :: x in st'.filter <==> x in st.filter || (Suppresses(r) && x == r.origAttr))
      && |st.normalized| <= |st'.normalized| && st'.normalized[..|st.normalized|] == st.normalized
      && |st.filter| <= |st'.filter| && st'.filter[..|st.filter|] == st.filter
  {
    if Consistent(st) { AddRuleWellShaped(st.table, r); }
  }

  /** The effect of a sequence of valid rows, first to last. */
  function ApplyAll(st: BuildState, rules: seq<MappingRule>): (st': BuildState)
    ensures Consistent(st) ==> Consistent(st')
    decreases |rules|
  {
    if rules == [] then st
    else
      ApplyRuleEffect(st, rules[0]);
      ApplyAll(ApplyRule(st, rules[0]), rules[1..])
  }

  /** Where a run of the builder stopped: the state reached, and the abort if any. */
  datatype Run = Run(reached: BuildState, abort: Option<Abort>)

  /** `generate_clinical_data_map` over rows supplied in memory: the rows are applied in
      order until one cannot be read, which ends the run. */
  function Build(st: BuildState, rows: seq<MapRow>): Run
    decreases |rows|
  {
    if rows == [] then Run(st, None)
    else match ReadRule(rows[0])
      case Err(e) => Run(st, Some(e))
      case Ok(r) => Build(ApplyRule(st, r), rows[1..])
  }

  lemma {:induction false} BuildKeepsConsistent(st: BuildState, rows: seq<MapRow>)
    ensures Consistent(st) ==> Consistent(Build(st, rows).reached)
    decreases |rows|
  {
    if rows != [] && ReadRule(rows[0]).Ok? {
      ApplyRuleEffect(st, ReadRule(rows[0]).value);
      BuildKeepsConsistent(ApplyRule(st, ReadRule(rows[0]).value), rows[1..]);
    }
  }

  /** All rows read, or the first failure. */
  function ReadAll(rows: seq<MapRow>): (r: Result<seq<MappingRule>>)
    ensures r.Ok? ==> |r.value| == |rows|
    decreases |rows|
  {
    if rows == [] then Ok([])
    else
      var r :- ReadRule(rows[0]);
      var rest :- ReadAll(rows[1..]);
      Ok([r] + rest)
  }

  /** Reading succeeds exactly when every row reads, and then yields each row's rule. */
  lemma {:induction false} ReadAllRows(rows: seq<MapRow>)
    ensures ReadAll(rows).Ok? <==> forall i :: 0 <= i < |rows| ==> ReadRule(rows[i]).Ok?
    ensures ReadAll(rows).Ok? ==> forall i :: 0 <= i < |rows| ==> ReadRule(rows[i]) == Ok(ReadAll(rows).value[i])
    decreases |rows|
  {
    if rows != [] {
      ReadAllRows(rows[1..]);
      assert forall i :: 1 <= i < |rows| ==> rows[i] == rows[1..][i - 1];
    }
  }

  /** A run succeeds exactly when every row reads, and then it has applied them all;
      otherwise it reports the first row's failure. */
  lemma {:induction false} BuildAppliesReadRules(st: BuildState, rows: seq<MapRow>)
    ensures Build(st, rows).abort.None? <==> ReadAll(rows).Ok?
    ensures ReadAll(rows).Ok? ==> Build(st, rows).reached == ApplyAll(st, ReadAll(rows).value)
    ensures ReadAll(rows).Err? ==> Build(st, rows).abort == Some(ReadAll(rows).error)
    decreases |rows|
  {
    if rows != [] {
      match ReadRule(rows[0])
      case Err(e) =>
      case Ok(r) =>
        BuildAppliesReadRules(ApplyRule(st, r), rows[1..]);
        if ReadAll(rows).Ok? {
          assert ReadAll(rows).value == [r] + ReadAll(rows[1..]).value;
          assert ReadAll(rows).value[1..] == ReadAll(rows[1..]).value;
        }
    }
  }

  /** One step of the builder from row i on: stop at an unreadable row, else apply it. */
  lemma BuildAt(st: BuildState, rows: seq<MapRow>, i: nat)
    requires i < |rows|
    ensures ReadRule(rows[i]).Err? ==> Build(st, rows[i..]) == Run(st, Some(ReadRule(rows[i]).error))
    ensures ReadRule(rows[i]).Ok? ==>
      Build(st, rows[i..]) == Build(ApplyRule(st, ReadRule(rows[i]).value), rows[i + 1..])
  {
    assert rows[i..][0] == rows[i] && rows[i..][1..] == rows[i + 1..];
  }

  /** An invalid processing type aborts the build, at the first row that has one,
      provided every row before it reads. */
  lemma {:induction false} InvalidTypeAborts(st: BuildState, rows: seq<MapRow>, i: nat)
    requires i < |rows| && InvalidTypeRow(rows[i])
    requires ReadAll(rows[..i]).Ok?
    ensures Build(st, rows).abort == Some(InvalidProcessingType(Field(rows[i].processingType).value))
  {
    ReadingStopsAtInvalidType(rows, i);
    BuildAppliesReadRules(st, rows);
  }

  lemma {:induction false} ReadingStopsAtInvalidType(rows: seq<MapRow>, i: nat)
    requires i < |rows| && InvalidTypeRow(rows[i])
    requires ReadAll(rows[..i]).Ok?
    ensures ReadAll(rows) == Err(InvalidProcessingType(Field(rows[i].processingType).value))
    decreases i
  {
    if i == 0 {
      ReadRuleFields(rows[0]);
    } else {
      var rest := rows[1..];
      assert rows[..i][0] == rows[0] && rows[..i][1..] == rest[..i - 1];
      assert rest[i - 1] == rows[i];
      ReadingStopsAtInvalidType(rest, i - 1);
    }
  }

  /** The builder aborts with InvalidProcessingType only for a row whose type is invalid. */
  lemma {:induction false} AbortNamesInvalidRow(st: BuildState, rows: seq<MapRow>, name: string)
    requires Build(st, rows).abort == Some(InvalidProcessingType(name))
    ensures exists i :: 0 <= i < |rows| && Field(rows[i].processingType) == Ok(name)
                        && ParseProcessingType(name).None?
    decreases |rows|
  {
    ReadRuleFields(rows[0]);
    match ReadRule(rows[0])
    case Err(e) =>
      assert InvalidTypeRow(rows[0]);
    case Ok(r) =>
      AbortNamesInvalidRow(ApplyRule(st, r), rows[1..], name);
      var i :| 0 <= i < |rows[1..]| && Field(rows[1..][i].processingType) == Ok(name) && ParseProcessingType(name).None?;
      assert rows[i + 1] == rows[1..][i];
  }

  /** Some rule of the sequence satisfies f. */
  ghost predicate SomeRule(rules: seq<MappingRule>, f: MappingRule -> bool)
  {
    exists i :: 0 <= i < |rules| && f(rules[i])
  }

  lemma SomeRuleSplit(rules: seq<MappingRule>, f: MappingRule -> bool)
    requires rules != []
    ensures SomeRule(rules, f) <==> f(rules[0]) || SomeRule(rules[1..], f)
  {
    if SomeRule(rules, f) {
      var i :| 0 <= i < |rules| && f(rules[i]);
      if i > 0 { assert rules[1..][i - 1] == rules[i]; }
    }
    if SomeRule(rules[1..], f) {
      var i :| 0 <= i < |rules[1..]| && f(rules[1..][i]);
      assert rules[i + 1] == rules[1..][i];
    }
  }

  /** NORMALIZED_ATTRIBUTE_LIST after a sequence of rows: what it held before, unchanged and
      still first, and afterwards exactly the normalized attributes of the rows whose type
      adds one; it never gains a duplicate. */
  lemma {:induction false} NormalizedAttributeList(st: BuildState, rules: seq<MappingRule>)
    ensures var st' := ApplyAll(st, rules);
      && |st.normalized| <= |st'.normalized|
      && st'.normalized[..|st.normalized|] == st.normalized
      && (NoDup(st.normalized) ==> NoDup(st'.normalized))
      && forall x :: x in st'.normalized <==>
           x in st.normalized || SomeRule(rules, (r: MappingRule) => r.ptype.AddsNormalized() && r.normAttr == x)
    decreases |rules|
  {
    if rules != [] {
      var mid := ApplyRule(st, rules[0]);
      ApplyRuleEffect(st, rules[0]);
      NormalizedAttributeList(mid, rules[1..]);
      var st' := ApplyAll(mid, rules[1..]);
      assert st'.normalized[..|st.normalized|] == st.normalized by {
        assert st'.normalized[..|mid.normalized|] == mid.normalized;
        assert mid.normalized[..|st.normalized|] == st.normalized;
      }
      if NoDup(st.normalized) {
        AppendNewKeepsNoDup(st.normalized, rules[0].normAttr);
      }
      forall x ensures x in st'.normalized <==>
           x in st.normalized || SomeRule(rules, (r: MappingRule) => r.ptype.AddsNormalized() && r.normAttr == x)
      {
        SomeRuleSplit(rules, (r: MappingRule) => r.ptype.AddsNormalized() && r.normAttr == x);
      }
    }
  }

  lemma AppendNewKeepsNoDup(s: seq<string>, x: string)
    requires NoDup(s)
    ensures NoDup(AppendNew(s, x))
  {
  }

  /** IGNORE and ADD_GENOMIC_ALTERATIONS rows never put an attribute on the list. */
  lemma IgnoredNeverNormalized(st: BuildState, rules: seq<MappingRule>, x: string)
    requires x !in st.normalized
    requires forall i :: 0 <= i < |rules| && rules[i].normAttr == x ==>
               rules[i].ptype.Ignore? || rules[i].ptype.AddGenomicAlterations?
    ensures x !in ApplyAll(st, rules).normalized
  {
    NormalizedAttributeList(st, rules);
  }

  /** POST_PROCESS_ATTRIBUTE_FILTER after a sequence of rows: the old entries first, then
      exactly the original attributes of MERGE and FIX_ALL rows that rename them and of
      IGNORE rows; it never gains a duplicate. */
  lemma {:induction false} PostProcessFilter(st: BuildState, rules: seq<MappingRule>)
    ensures var st' := ApplyAll(st, rules);
      && |st.filter| <= |st'.filter|
      && st'.filter[..|st.filter|] == st.filter
      && (NoDup(st.filter) ==> NoDup(st'.filter))
      && forall x :: x in st'.filter <==>
           x in st.filter || SomeRule(rules, (r: MappingRule) => Suppresses(r) && r.origAttr == x)
    decreases |rules|
  {
    if rules != [] {
      var mid := ApplyRule(st, rules[0]);
      ApplyRuleEffect(st, rules[0]);
      PostProcessFilter(mid, rules[1..]);
      var st' := ApplyAll(mid, rules[1..]);
      assert st'.filter[..|st.filter|] == st.filter by {
        assert st'.filter[..|mid.filter|] == mid.filter;
        assert mid.filter[..|st.filter|] == st.filter;
      }
      if NoDup(st.filter) {
        AppendNewKeepsNoDup(st.filter, rules[0].origAttr);
      }
      forall x ensures x in st'.filter <==>
           x in st.filter || SomeRule(rules, (r: MappingRule) => Suppresses(r) && r.origAttr == x)
      {
        SomeRuleSplit(rules, (r: MappingRule) => Suppresses(r) && r.origAttr == x);
      }
    }
  }

  /** Rows that do not write a nested entry leave its value alone. */
  lemma {:induction false} LookupUntouched(st: BuildState, rules: seq<MappingRule>, p: ProcessingType, n: string, o: string, v: string)
    requires p.IsMapping()
    requires forall j :: 0 <= j < |rules| ==> (rules[j].ptype, rules[j].normAttr, rules[j].origAttr, rules[j].origValue) != (p, n, o, v)
    ensures Lookup(ApplyAll(st, rules).table, p, n, o, v) == Lookup(st.table, p, n, o, v)
    decreases |rules|
  {
    if rules != [] {
      assert forall j :: 0 <= j < |rules| - 1 ==> rules[1..][j] == rules[j + 1];
      AddRuleLookup(st.table, rules[0], p, n, o, v);
      LookupUntouched(ApplyRule(st, rules[0]), rules[1..], p, n, o, v);
    }
  }

  /** For a mapping type the last row with a given (normalized attribute, original
      attribute, original value) decides the normalized value. */
  lemma {:induction false} MappingLastWriteWins(st: BuildState, rules: seq<MappingRule>, i: nat)
    requires i < |rules| && rules[i].ptype.IsMapping()
    requires forall j :: i < j < |rules| ==>
      (rules[j].ptype, rules[j].normAttr, rules[j].origAttr, rules[j].origValue) !=
      (rules[i].ptype, rules[i].normAttr, rules[i].origAttr, rules[i].origValue)
    ensures Lookup(ApplyAll(st, rules).table, rules[i].ptype, rules[i].normAttr, rules[i].origAttr, rules[i].origValue)
            == Some(rules[i].normValue)
    decreases i
  {
    var r := rules[i];
    if i == 0 {
      assert forall j :: 0 <= j < |rules| - 1 ==> rules[1..][j] == rules[j + 1];
      AddRuleLookup(st.table, r, r.ptype, r.normAttr, r.origAttr, r.origValue);
      LookupUntouched(ApplyRule(st, r), rules[1..], r.ptype, r.normAttr, r.origAttr, r.origValue);
    } else {
      assert forall j :: i - 1 < j < |rules| - 1 ==> rules[1..][j] == rules[j + 1];
      assert rules[1..][i - 1] == r;
      MappingLastWriteWins(ApplyRule(st, rules[0]), rules[1..], i - 1);
    }
  }

  /** For ADD_ALL the last row for a normalized attribute decides its constant. */
  lemma {:induction false} AddAllLastWriteWins(st: BuildState, rules: seq<MappingRule>, i: nat)
    requires i < |rules| && rules[i].ptype.AddAll?
    requires forall j :: i < j < |rules| ==> !(rules[j].ptype.AddAll? && rules[j].normAttr == rules[i].normAttr)
    ensures var c := ConstantsOf(ApplyAll(st, rules).table);
      rules[i].normAttr in c && c[rules[i].normAttr] == rules[i].normValue
    decreases |rules|
  {
    if i == 0 {
      assert forall j :: 0 <= j < |rules| - 1 ==> rules[1..][j] == rules[j + 1];
      AddRuleConstants(st.table, rules[0]);
      AddAllUntouched(ApplyRule(st, rules[0]), rules[1..], rules[0].normAttr);
    } else {
      assert forall j :: i - 1 < j < |rules| - 1 ==> rules[1..][j] == rules[j + 1];
      assert rules[1..][i - 1] == rules[i];
      AddAllLastWriteWins(ApplyRule(st, rules[0]), rules[1..], i - 1);
    }
  }

  lemma {:induction false} AddAllUntouched(st: BuildState, rules: seq<MappingRule>, n: string)
    requires forall j :: 0 <= j < |rules| ==> !(rules[j].ptype.AddAll? && rules[j].normAttr == n)
    ensures var c := ConstantsOf(ApplyAll(st, rules).table);
      (n in c <==> n in ConstantsOf(st.table)) && (n in c ==> c[n] == ConstantsOf(st.table)[n])
    decreases |rules|
  {
    if rules != [] {
      assert forall j :: 0 <= j < |rules| - 1 ==> rules[1..][j] == rules[j + 1];
      AddRuleConstants(st.table, rules[0]);
      AddAllUntouched(ApplyRule(st, rules[0]), rules[1..], n);
    }
  }

  /** KEEP_ALL and IGNORE collect the original attribute of every row of their type, and
      nothing else. */
  lemma {:induction false} NameLists(st: BuildState, rules: seq<MappingRule>, p: ProcessingType)
    requires p.KeepAll? || p.Ignore?
    ensures forall x :: x in NamesOf(ApplyAll(st, rules).table, p) <==>
      x in NamesOf(st.table, p) || SomeRule(rules, (r: MappingRule) => r.ptype == p && r.origAttr == x)
    decreases |rules|
  {
    if rules != [] {
      var mid := ApplyRule(st, rules[0]);
      ApplyRuleEffect(st, rules[0]);
      AddRuleNames(st.table, rules[0], p);
      NameLists(mid, rules[1..], p);
      forall x ensures x in NamesOf(ApplyAll(st, rules).table, p) <==>
        x in NamesOf(st.table, p) || SomeRule(rules, (r: MappingRule) => r.ptype == p && r.origAttr == x)
      {
        SomeRuleSplit(rules, (r: MappingRule) => r.ptype == p && r.origAttr == x);
      }
    }
  }

  /** The module-level state of clinical_cleanup.py that `generate_clinical_data_map`
      fills in place. */
  class RuleRegistry {
    var table: RuleTable
    var normalizedAttributes: seq<string>
    var postProcessFilter: seq<string>

    function State(): BuildState
      reads this
    {
      BuildState(table, normalizedAttributes, postProcessFilter)
    }

    /** The empty collections the module starts with. */
    constructor ()
      ensures State() == Initial
    {
      table := map[];
      normalizedAttributes := [];
      postProcessFilter := [];
    }

    /** The updates of one valid row (clinical_cleanup.py:324-354): its type's table, then
        NORMALIZED_ATTRIBUTE_LIST and POST_PROCESS_ATTRIBUTE_FILTER, each appended to
        only when the attribute is not listed yet. */
    method ApplyRow(r: MappingRule)
      modifies this
      ensures State() == ApplyRule(old(State()), r)
    {
      table := AddRule(table, r);
      if r.ptype.AddsNormalized() && r.normAttr !in normalizedAttributes {
        normalizedAttributes := normalizedAttributes + [r.normAttr];
      }
      if (r.ptype.Merge? || r.ptype.FixAll?) && r.origAttr != r.normAttr && r.origAttr !in postProcessFilter {
        postProcessFilter := postProcessFilter + [r.origAttr];
      } else if r.ptype.Ignore? && r.origAttr !in postProcessFilter {
        postProcessFilter := postProcessFilter + [r.origAttr];
      }
    }

    /** `generate_clinical_data_map` (clinical_cleanup.py:306-354) over rows in memory:
        each row is read and applied in turn; an unreadable row stops the run. */
    method GenerateClinicalDataMap(rows: seq<MapRow>) returns (abort: Option<Abort>)
      modifies this
      ensures Run(State(), abort) == Build(old(State()), rows)
      ensures Consistent(old(State())) ==> Consistent(State())
    {
      var i := 0;
      while i < |rows|
        invariant 0 <= i <= |rows|
        invariant Build(old(State()), rows) == Build(State(), rows[i..])
      {
        BuildAt(State(), rows, i);
        var read := ReadRule(rows[i]);
        if read.Err? {
          abort := Some(read.error);
          BuildKeepsConsistent(old(State()), rows);
          return;
        }
        ApplyRow(read.value);
        i := i + 1;
      }
      BuildKeepsConsistent(old(State()), rows);
      return None;
    }
  }

  /** Whether the table of type p declares attr, as `get_processing_type` tests it. */
  predicate Declares(t: RuleTable, p: ProcessingType, attr: string)
  {
    match p
    case KeepAll => attr in NamesOf(t, p)
    case Ignore => attr in NamesOf(t, p)
    case AddAll => attr in ConstantsOf(t)
    case AddGenomicAlterations => false
    case _ => attr in NestedOf(t, p)
  }

  /** Scanning VALID_PROCESSING_TYPES finds a type whenever any type declares attr. */
  lemma ScanCoversAllTypes(t: RuleTable, attr: string)
    ensures FirstDeclaring(t, attr, ValidProcessingTypes).None? <==> forall p :: !Declares(t, p, attr)
    ensures FirstDeclaring(t, attr, ValidProcessingTypes) != Some(AddGenomicAlterations)
  {
    assert !Declares(t, AddGenomicAlterations, attr);
    if FirstDeclaring(t, attr, ValidProcessingTypes).None? {
      forall p ensures !Declares(t, p, attr) { AllTypesListed(p); }
    }
  }

  /** The first type in `order` whose table declares attr. */
  function FirstDeclaring(t: RuleTable, attr: string, order: seq<ProcessingType>): (r: Option<ProcessingType>)
    ensures r.Some? ==> r.value in order && Declares(t, r.value, attr)
    ensures r.None? <==> forall p :: p in order ==> !Declares(t, p, attr)
    decreases |order|
  {
    if order == [] then None
    else if Declares(t, order[0], attr) then Some(order[0])
    else
      var r := FirstDeclaring(t, attr, order[1..]);
      assert forall p :: p in order ==> p == order[0] || p in order[1..];
      r
  }

  /** `get_processing_type` (clinical_cleanup.py:232-246): the first type that declares
      the attribute, or None. Python 2 scans the dict in hash order; the model fixes the
      order of VALID_PROCESSING_TYPES. */
  function GetProcessingType(t: RuleTable, attr: string): (r: Option<ProcessingType>)
    ensures r.Some? ==> Declares(t, r.value, attr) && !r.value.AddGenomicAlterations?
    ensures r.None? <==> forall p :: !Declares(t, p, attr)
  {
    ScanCoversAllTypes(t, attr);
    FirstDeclaring(t, attr, ValidProcessingTypes)
  }

  /** When exactly one type declares the attribute, every scan order finds that type:
      the classifier's answer is then independent of the dict's iteration order. */
  lemma ClassifierOrderIndependent(t: RuleTable, attr: string, p: ProcessingType, order: seq<ProcessingType>)
    requires Declares(t, p, attr) && p in order
    requires forall q :: Declares(t, q, attr) ==> q == p
    ensures FirstDeclaring(t, attr, order) == Some(p)
    ensures GetProcessingType(t, attr) == Some(p)
  {
  }
}
