/** `normalize_attribute_data` of clinical_cleanup.py: the value one normalized attribute
    takes for one sample, computed from the raw values of its contributing original
    attributes and the nested rules of its processing type. */
module ClinicalResolve {
  import opened Values
  import opened Seqs
  import opened Text
  import opened ClinicalRules

  /** `map(lambda x: sample_data.get(x, 'NA'), orig_attrs)`: the raw value of each
      contributor, 'NA' when the sample lacks it. */
  function RawValues(attrs: seq<string>, sample: map<string, Cell>): (vals: seq<Cell>)
    ensures |vals| == |attrs|
  {
    seq(|attrs|, i requires 0 <= i < |attrs| => GetOr(sample, attrs[i], Text("NA")))
  }

  // ---------------------------------------------------------------------------------
  // MERGE (clinical_cleanup.py:179-201)

  /** The first MERGE loop: `value.extend(val.split('/'))` for every raw value, in
      contributor order; `None.split` raises AttributeError. */
  function SplitValues(vals: seq<Cell>): Result<seq<string>>
    decreases |vals|
  {
    if vals == [] then Ok([])
    else
      var init :- SplitValues(vals[..|vals| - 1]);
      match vals[|vals| - 1]
      case NoValue => Err(PythonError("AttributeError"))
      case Text(s) => Ok(init + Split(s, '/'))
  }

  /** The second MERGE loop, for the positions it reaches: the sub-value at flattened
      position i is looked up in the rules of contributor i, an unmapped one giving the
      token 'NA', and the result is split on '/'. */
  function MergeTokens(src: Sources, subs: seq<string>): seq<string>
    requires SourcesValid(src) && |subs| <= |src.attrs|
    decreases |subs|
  {
    if subs == [] then []
    else
      var i := |subs| - 1;
      MergeTokens(src, subs[..i]) + Split(GetOr(src.maps[src.attrs[i]], subs[i], "NA"), '/')
  }

  predicate NotNoneToken(t: string)
  {
    t != "None"
  }

  /** `list(set(tokens))`, without the 'None' tokens, sorted. */
  function KeptTokens(tokens: seq<string>): seq<string>
  {
    Sort(Filter(Distinct(tokens), NotNoneToken))
  }

  /** The end of MERGE: 'NA' when no token is left, otherwise the '/'-join. */
  function FinishMerge(tokens: seq<string>): string
  {
    var kept := KeptTokens(tokens);
    if kept == [] then "NA" else Join(kept, '/')
  }

  /** MERGE as the source writes it. When a raw value holds a '/', the flattened list is
      longer than the contributor list and `orig_attrs[i]` raises IndexError. */
  function MergeResult(src: Sources, vals: seq<Cell>): Result<Cell>
    requires SourcesValid(src) && |vals| == |src.attrs|
  {
    var subs :- SplitValues(vals);
    if subs == [] then Ok(Text("NA"))
    else if |subs| > |src.attrs| then Err(PythonError("IndexError"))
    else Ok(Text(FinishMerge(MergeTokens(src, subs))))
  }

  /** A raw value the first MERGE loop splits into more than one piece. */
  predicate HasSlash(c: Cell)
  {
    c.Text? && '/' in c.s
  }

  /** The first loop fails exactly when some raw value is None, and then with AttributeError. */
  lemma {:induction false} SplitValuesErr(vals: seq<Cell>)
    ensures SplitValues(vals).Err? <==> NoValue in vals
    ensures SplitValues(vals).Err? ==> SplitValues(vals).error == PythonError("AttributeError")
    decreases |vals|
  {
    if vals != [] {
      var init := vals[..|vals| - 1];
      SplitValuesErr(init);
      assert vals == init + [vals[|vals| - 1]];
    }
  }

  /** Every raw value gives at least one piece; there is exactly one piece per raw value
      when no raw value holds a '/', and then the pieces are the raw values. */
  lemma {:induction false} SplitValuesLength(vals: seq<Cell>)
    requires NoValue !in vals
    ensures SplitValues(vals).Ok?
    ensures |SplitValues(vals).value| >= |vals|
    ensures |SplitValues(vals).value| == |vals| <==> forall i :: 0 <= i < |vals| ==> !HasSlash(vals[i])
    ensures |SplitValues(vals).value| == |vals| ==>
      forall i :: 0 <= i < |vals| ==> vals[i] == Text(SplitValues(vals).value[i])
    decreases |vals|
  {
    SplitValuesErr(vals);
    if vals != [] {
      var n := |vals| - 1;
      var init := vals[..n];
      assert vals == init + [vals[n]];
      SplitValuesLength(init);
      var s := vals[n].s;
      SplitPieces(s, '/');
      var pieces := Split(s, '/');
      var head := SplitValues(init).value;
      assert SplitValues(vals).value == head + pieces;
      if forall i :: 0 <= i < |vals| ==> !HasSlash(vals[i]) {
        assert !HasSlash(vals[n]);
        assert forall i :: 0 <= i < |init| ==> !HasSlash(init[i]) by {
          forall i | 0 <= i < |init| ensures !HasSlash(init[i]) { assert init[i] == vals[i]; }
        }
        SplitNoSeparator(s, '/');
      } else {
        var j :| 0 <= j < |vals| && HasSlash(vals[j]);
        if j == n {
          assert |pieces| != 1;
        } else {
          assert init[j] == vals[j];
        }
      }
      if |SplitValues(vals).value| == |vals| {
        assert |head| == |init| && |pieces| == 1;
        SplitNoSeparator(s, '/');
        forall i | 0 <= i < |vals| ensures vals[i] == Text(SplitValues(vals).value[i]) {
          if i < n { assert init[i] == vals[i]; }
        }
      }
    }
  }

  /** A token of the second loop never holds a '/'. */
  lemma {:induction false} MergeTokensNoSlash(src: Sources, subs: seq<string>)
    requires SourcesValid(src) && |subs| <= |src.attrs|
    ensures forall x :: x in MergeTokens(src, subs) ==> '/' !in x
    decreases |subs|
  {
    if subs != [] {
      var i := |subs| - 1;
      MergeTokensNoSlash(src, subs[..i]);
      SplitPieces(GetOr(src.maps[src.attrs[i]], subs[i], "NA"), '/');
    }
  }

  /** The kept tokens are the distinct tokens other than 'None', strictly increasing. */
  lemma KeptTokensShape(tokens: seq<string>)
    ensures StrictlySorted(KeptTokens(tokens))
    ensures forall x :: x in KeptTokens(tokens) <==> x in tokens && x != "None"
  {
    var d := Filter(Distinct(tokens), NotNoneToken);
    FilterNoDup(Distinct(tokens), NotNoneToken);
    var r := Sort(d);
    forall x ensures x in r <==> x in d {
      assert x in r <==> x in multiset(r);
    }
    forall i, j | 0 <= i < j < |r| ensures StrLess(r[i], r[j]) {
      SortedNoDupIsStrict(r, d, i, j);
    }
  }

  /** The merged value lists every token other than 'None' once, in increasing order,
      and is 'NA' when there is no such token; it never holds a 'None' token. */
  lemma FinishMergeShape(tokens: seq<string>)
    requires forall x :: x in tokens ==> '/' !in x
    ensures (exists x :: x in tokens && x != "None") ==> Split(FinishMerge(tokens), '/') == KeptTokens(tokens)
    ensures (forall x :: x in tokens ==> x == "None") ==> FinishMerge(tokens) == "NA"
    ensures StrictlySorted(Split(FinishMerge(tokens), '/'))
    ensures "None" !in Split(FinishMerge(tokens), '/')
  {
    KeptTokensShape(tokens);
    var kept := KeptTokens(tokens);
    if kept == [] {
      SplitNoSeparator("NA", '/');
    } else {
      assert kept[0] in kept;
      SplitJoin(kept, '/');
    }
  }

  /** The merged value depends only on which tokens occur: neither their order nor
      their repetition matters. */
  lemma FinishMergeSetOnly(a: seq<string>, b: seq<string>)
    requires forall x :: x in a <==> x in b
    ensures FinishMerge(a) == FinishMerge(b)
  {
    KeptTokensShape(a);
    KeptTokensShape(b);
    StrictlySortedUnique(KeptTokens(a), KeptTokens(b));
  }

  /** So the order in which contributors' tokens are gathered does not matter. */
  lemma FinishMergeCommutes(a: seq<string>, b: seq<string>)
    ensures FinishMerge(a + b) == FinishMerge(b + a)
  {
    FinishMergeSetOnly(a + b, b + a);
  }

  /** A successful MERGE yields the value of the per-contributor reference merge: the
      increasing '/'-list of the distinct mapped tokens other than 'None', or 'NA' when
      there is none. */
  lemma MergeShape(src: Sources, vals: seq<Cell>)
    requires SourcesValid(src) && |vals| == |src.attrs|
    ensures MergeResult(src, vals).Ok? ==>
      MergeResult(src, vals).value == Text(FinishMerge(ReferenceTokens(src, vals)))
    ensures MergeResult(src, vals).Ok? ==>
      && MergeResult(src, vals).value.Text?
      && StrictlySorted(Split(MergeResult(src, vals).value.s, '/'))
      && "None" !in Split(MergeResult(src, vals).value.s, '/')
  {
    MergeMatchesReference(src, vals);
    var subs := SplitValues(vals);
    if subs.Ok? && subs.value != [] && |subs.value| <= |src.attrs| {
      MergeTokensNoSlash(src, subs.value);
      FinishMergeShape(MergeTokens(src, subs.value));
    } else if subs.Ok? && subs.value == [] {
      SplitNoSeparator("NA", '/');
    }
  }

  /** When MERGE aborts: AttributeError exactly when a raw value is None; otherwise
      IndexError exactly when some raw value holds a '/'. */
  lemma MergeAborts(src: Sources, vals: seq<Cell>)
    requires SourcesValid(src) && |vals| == |src.attrs|
    ensures MergeResult(src, vals) == Err(PythonError("AttributeError")) <==> NoValue in vals
    ensures NoValue !in vals ==>
      (MergeResult(src, vals).Err? <==> exists i :: 0 <= i < |vals| && HasSlash(vals[i]))
    ensures NoValue !in vals && MergeResult(src, vals).Err? ==>
      MergeResult(src, vals).error == PythonError("IndexError")
  {
    SplitValuesErr(vals);
    if NoValue !in vals {
      SplitValuesLength(vals);
    }
  }

  /** The tokens of a merge that pairs every contributor with its own rules: each piece
      of contributor i's raw value is looked up in contributor i's rules. */
  function ReferenceTokens(src: Sources, vals: seq<Cell>): seq<string>
    requires SourcesValid(src) && |vals| <= |src.attrs|
    decreases |vals|
  {
    if vals == [] then []
    else
      var i := |vals| - 1;
      var own := match vals[i]
        case NoValue => []
        case Text(s) => MapPieces(src.maps[src.attrs[i]], Split(s, '/'));
      ReferenceTokens(src, vals[..i]) + own
  }

  /** The tokens of looking every piece up in one contributor's rules. */
  function MapPieces(rules: map<string, string>, pieces: seq<string>): seq<string>
    decreases |pieces|
  {
    if pieces == [] then []
    else
      var i := |pieces| - 1;
      MapPieces(rules, pieces[..i]) + Split(GetOr(rules, pieces[i], "NA"), '/')
  }

  lemma {:induction false} MergeTokensAgree(src: Sources, vals: seq<Cell>, subs: seq<string>)
    requires SourcesValid(src) && |vals| <= |src.attrs| && |subs| == |vals|
    requires forall i :: 0 <= i < |vals| ==> vals[i] == Text(subs[i])
    requires forall i :: 0 <= i < |vals| ==> '/' !in subs[i]
    ensures MergeTokens(src, subs) == ReferenceTokens(src, vals)
    decreases |vals|
  {
    if vals != [] {
      var i := |vals| - 1;
      MergeTokensAgree(src, vals[..i], subs[..i]);
      SplitNoSeparator(subs[i], '/');
      var rules := src.maps[src.attrs[i]];
      assert [subs[i]][..0] == [];
      assert MapPieces(rules, [subs[i]]) == Split(GetOr(rules, subs[i], "NA"), '/');
    }
  }

  /** Whenever MERGE as written succeeds, its value is the one the per-contributor
      pairing gives: the misaligned lookup only ever shows as the IndexError. */
  lemma MergeMatchesReference(src: Sources, vals: seq<Cell>)
    requires SourcesValid(src) && |vals| == |src.attrs|
    ensures MergeResult(src, vals).Ok? ==>
      MergeResult(src, vals) == Ok(Text(FinishMerge(ReferenceTokens(src, vals))))
  {
    SplitValuesErr(vals);
    if MergeResult(src, vals).Ok? {
      SplitValuesLength(vals);
      var subs := SplitValues(vals).value;
      if subs == [] {
        assert vals == [];
        assert KeptTokens([]) == [];
      } else {
        assert |subs| == |vals|;
        forall i | 0 <= i < |vals| ensures '/' !in subs[i] {
          assert !HasSlash(vals[i]);
        }
        MergeTokensAgree(src, vals, subs);
      }
    }
  }

  /** A raw value holding a '/' makes MERGE abort, although the per-contributor pairing
      has a value for it. */
  lemma MergeSlashAborts(src: Sources, vals: seq<Cell>, i: int)
    requires SourcesValid(src) && |vals| == |src.attrs|
    requires NoValue !in vals && 0 <= i < |vals| && HasSlash(vals[i])
    ensures MergeResult(src, vals) == Err(PythonError("IndexError"))
  {
    MergeAborts(src, vals);
  }

  /** The second MERGE loop itself, proved to compute MergeResult. */
  method MergeValues(src: Sources, vals: seq<Cell>) returns (r: Result<Cell>)
    requires SourcesValid(src) && |vals| == |src.attrs|
    ensures r == MergeResult(src, vals)
  {
    var value: seq<string> := [];
    var k := 0;
    while k < |vals|
      invariant 0 <= k <= |vals|
      invariant SplitValues(vals[..k]) == Ok(value)
    {
      if vals[k].NoValue? {
        SplitValuesErr(vals);
        return Err(PythonError("AttributeError"));
      }
      assert vals[..k + 1][..k] == vals[..k];
      value := value + Split(vals[k].s, '/');
      k := k + 1;
    }
    assert vals[..k] == vals;
    if value == [] {
      return Ok(Text("NA"));
    }
    var tokens: seq<string> := [];
    var i := 0;
    while i < |value|
      invariant 0 <= i <= |value| && i <= |src.attrs|
      invariant tokens == MergeTokens(src, value[..i])
    {
      if i >= |src.attrs| {
        return Err(PythonError("IndexError"));
      }
      assert value[..i + 1][..i] == value[..i];
      var newVal := GetOr(src.maps[src.attrs[i]], value[i], "NA");
      tokens := tokens + Split(newVal, '/');
      i := i + 1;
    }
    assert value[..i] == value;
    var kept := Filter(Distinct(tokens), NotNoneToken);
    if kept == [] {
      return Ok(Text("NA"));
    }
    return Ok(Text(Join(Sort(kept), '/')));
  }

  // ---------------------------------------------------------------------------------
  // DERIVE, FIX_ALL, FIX_VALUE, FIX_ATTRIBUTE (clinical_cleanup.py:203-221)

  /** `len(set(orig_vals)) <= 1` */
  predicate AllEqual(vals: seq<Cell>)
  {
    forall i :: 0 <= i < |vals| ==> vals[i] == vals[0]
  }

  /** The single lookup: the contributors must agree; 'NA' stays 'NA'; otherwise the
      first contributor's rules map the value, pass through a value that is already one
      of their normalized values, and give None for anything else. */
  function SingleResult(normAttr: string, src: Sources, vals: seq<Cell>): Result<Cell>
    requires SourcesValid(src) && |vals| == |src.attrs|
  {
    if !AllEqual(vals) then Err(InconsistentValues(normAttr, vals))
    else if vals == [] then Err(PythonError("IndexError"))
    else if vals[0] == Text("NA") then Ok(Text("NA"))
    else
      var first := src.maps[src.attrs[0]];
      match vals[0]
      case NoValue => Ok(NoValue)
      case Text(v) =>
        if v in first then Ok(Text(first[v]))
        else if v in first.Values then Ok(Text(v))
        else Ok(NoValue)
  }

  // ---------------------------------------------------------------------------------
  // The whole resolver

  /** `normalize_attribute_data(ptype, norm_attr, sample_data)` (clinical_cleanup.py:171-229)
      over the table the builder produced. */
  function Normalized(t: RuleTable, p: ProcessingType, normAttr: string, sample: map<string, Cell>): Result<Cell>
    requires p.IsMapping() && WellShaped(t)
  {
    if p !in t then Err(PythonError("KeyError"))
    else if normAttr !in NestedOf(t, p) then Err(PythonError("AttributeError"))
    else
      var src := NestedOf(t, p)[normAttr];
      var vals := RawValues(src.attrs, sample);
      if p.Merge? then MergeResult(src, vals) else SingleResult(normAttr, src, vals)
  }

  /** The resolver stops only with exit status 2 for disagreeing values, or with an
      exception. */
  lemma NormalizedErrors(t: RuleTable, p: ProcessingType, normAttr: string, sample: map<string, Cell>)
    requires p.IsMapping() && WellShaped(t)
    ensures Normalized(t, p, normAttr, sample).Err? ==>
      Normalized(t, p, normAttr, sample).error.PythonError? ||
      Normalized(t, p, normAttr, sample).error.InconsistentValues?
  {
    if p in t && normAttr in NestedOf(t, p) && p.Merge? {
      SplitValuesErr(RawValues(NestedOf(t, p)[normAttr].attrs, sample));
    }
  }

  /** The single lookup in terms of the rule table: the run stops with exit status 2
      exactly when two contributors' raw values differ; agreeing 'NA' values stay 'NA';
      a mapped value becomes its mapping; an unmapped value that some rule of the first
      contributor produces passes through; any other value becomes None. */
  lemma SingleLookup(t: RuleTable, p: ProcessingType, normAttr: string, sample: map<string, Cell>)
    requires p.IsMapping() && !p.Merge? && WellShaped(t) && normAttr in NestedOf(t, p)
    ensures var src := NestedOf(t, p)[normAttr];
      var vals := RawValues(src.attrs, sample);
      var r := Normalized(t, p, normAttr, sample);
      && (r.Err? && r.error.InconsistentValues? <==>
           exists i, j :: 0 <= i < |vals| && 0 <= j < |vals| && vals[i] != vals[j])
      && (r.Err? && r.error.InconsistentValues? ==> r.error.values == vals)
      && (AllEqual(vals) && vals != [] ==>
           var first := src.attrs[0];
           && (vals[0] == Text("NA") ==> r == Ok(Text("NA")))
           && (vals[0] == NoValue ==> r == Ok(NoValue))
           && (vals[0].Text? && vals[0] != Text("NA") ==>
                var v := vals[0].s;
                && (forall n :: Lookup(t, p, normAttr, first, v) == Some(n) ==> r == Ok(Text(n)))
                && ((Lookup(t, p, normAttr, first, v).None? &&
                     exists w :: Lookup(t, p, normAttr, first, w) == Some(v)) ==> r == Ok(Text(v)))
                && ((Lookup(t, p, normAttr, first, v).None? &&
                     forall w :: Lookup(t, p, normAttr, first, w) != Some(v)) ==> r == Ok(NoValue))))
  {
    var src := NestedOf(t, p)[normAttr];
    var vals := RawValues(src.attrs, sample);
    if !AllEqual(vals) {
      var i :| 0 <= i < |vals| && vals[i] != vals[0];
      assert vals[i] != vals[0];
    }
    if AllEqual(vals) && vals != [] && vals[0].Text? && vals[0] != Text("NA") {
      var first := src.attrs[0];
      var rules := src.maps[first];
      var v := vals[0].s;
      if v !in rules && v in rules.Values {
        var w :| w in rules && rules[w] == v;
        assert Lookup(t, p, normAttr, first, w) == Some(v);
      }
    }
  }

  /** A non-MERGE value is 'NA', None, or a normalized value of some rule of its first
      contributor. */
  lemma SingleRange(t: RuleTable, p: ProcessingType, normAttr: string, sample: map<string, Cell>)
    requires p.IsMapping() && !p.Merge? && WellShaped(t) && normAttr in NestedOf(t, p)
    ensures var src := NestedOf(t, p)[normAttr];
      var r := Normalized(t, p, normAttr, sample);
      r.Ok? && r.value.Text? && r.value.s != "NA" ==>
        src.attrs != [] && exists w :: Lookup(t, p, normAttr, src.attrs[0], w) == Some(r.value.s)
  {
    var src := NestedOf(t, p)[normAttr];
    var vals := RawValues(src.attrs, sample);
    var r := Normalized(t, p, normAttr, sample);
    if r.Ok? && r.value.Text? && r.value.s != "NA" {
      var rules := src.maps[src.attrs[0]];
      var v := vals[0].s;
      if v in rules {
        assert Lookup(t, p, normAttr, src.attrs[0], v) == Some(r.value.s);
      } else {
        var w :| w in rules && rules[w] == v;
        assert Lookup(t, p, normAttr, src.attrs[0], w) == Some(r.value.s);
      }
    }
  }

  /** A sample without any contributor resolves to 'NA' under every mapping type. */
  lemma AbsentContributorsGiveNA(t: RuleTable, p: ProcessingType, normAttr: string, sample: map<string, Cell>)
    requires p.IsMapping() && WellShaped(t) && normAttr in NestedOf(t, p)
    requires forall a :: a in NestedOf(t, p)[normAttr].attrs ==> a !in sample
    requires p.Merge? ==> forall a :: a in NestedOf(t, p)[normAttr].attrs ==> "NA" !in NestedOf(t, p)[normAttr].maps[a]
    ensures p in t
    ensures p.Merge? || NestedOf(t, p)[normAttr].attrs != [] ==> Normalized(t, p, normAttr, sample) == Ok(Text("NA"))
  {
    var src := NestedOf(t, p)[normAttr];
    var vals := RawValues(src.attrs, sample);
    assert forall i :: 0 <= i < |vals| ==> vals[i] == Text("NA");
    if p.Merge? {
      MergeAllNA(src, vals);
    }
  }

  /** MERGE over raw values that are all 'NA', in rules that do not map 'NA', gives 'NA'. */
  lemma MergeAllNA(src: Sources, vals: seq<Cell>)
    requires SourcesValid(src) && |vals| == |src.attrs|
    requires forall i :: 0 <= i < |vals| ==> vals[i] == Text("NA")
    requires forall a :: a in src.attrs ==> "NA" !in src.maps[a]
    ensures MergeResult(src, vals) == Ok(Text("NA"))
  {
    if vals != [] {
      SplitValuesErr(vals);
      SplitValuesLength(vals);
      var subs := SplitValues(vals).value;
      forall i | 0 <= i < |vals| ensures !HasSlash(vals[i]) {
        assert vals[i] == Text("NA");
      }
      MergeTokensAllNA(src, subs);
      assert "NA" in MergeTokens(src, subs);
      KeptTokensShape(MergeTokens(src, subs));
      StrictlySortedUnique(KeptTokens(MergeTokens(src, subs)), ["NA"]);
    }
  }

  /** Looking up 'NA' sub-values in rules that do not map 'NA' gives only 'NA' tokens. */
  lemma {:induction false} MergeTokensAllNA(src: Sources, subs: seq<string>)
    requires SourcesValid(src) && |subs| <= |src.attrs|
    requires forall i :: 0 <= i < |subs| ==> subs[i] == "NA" && "NA" !in src.maps[src.attrs[i]]
    ensures forall x :: x in MergeTokens(src, subs) ==> x == "NA"
    ensures subs != [] ==> "NA" in MergeTokens(src, subs)
    decreases |subs|
  {
    if subs != [] {
      var i := |subs| - 1;
      MergeTokensAllNA(src, subs[..i]);
      SplitNoSeparator("NA", '/');
    }
  }

  /** `normalize_attribute_data`, proved to compute Normalized. */
  method NormalizeAttributeData(t: RuleTable, p: ProcessingType, normAttr: string, sample: map<string, Cell>)
    returns (r: Result<Cell>)
    requires p.IsMapping() && WellShaped(t)
    ensures r == Normalized(t, p, normAttr, sample)
  {
    if p !in t {
      return Err(PythonError("KeyError"));
    }
    var rules := NestedOf(t, p);
    if normAttr !in rules {
      return Err(PythonError("AttributeError"));
    }
    var src := rules[normAttr];
    var vals := RawValues(src.attrs, sample);
    if p.Merge? {
      r := MergeValues(src, vals);
    } else {
      r := SingleResult(normAttr, src, vals);
    }
  }
}
