/** The part of `parse_dnds` after the file loop
    (6_parse_raw_codeml_files.py:102-144): which loci are complete, the
    summary rows in sorted locus order, and the branch table. */
module CodemlReport {
  import opened Wrappers
  import opened Text
  import opened CodemlScan

  /** A locus is complete iff it has a kappa, an omega and at least one
      compared branch (6_parse_raw_codeml_files.py:105-110). */
  predicate Complete(l: Locus) {
    l.kappa.Some? && l.omega.Some? && l.numCompare != 0
  }

  /** `loci_w_missing_info`. */
  function MissingLoci(st: ScanState): set<string> {
    set l | l in st.summary && !Complete(st.summary[l])
  }

  /** One line of `summary_tab.tsv`; the two means are kept as numbers. */
  datatype SummaryRow = SummaryRow(
    locus: string,
    kappa: string,
    omega: string,
    totalDN: string,
    totalDS: string,
    meanN: real,
    meanS: real,
    numPolymorphicSites: nat)

  /** The row of a complete locus (6_parse_raw_codeml_files.py:127-139); its
      `total_dN` or `total_dS` not having been recorded is a `KeyError`, and
      `total_dN` is looked up first. */
  function RowOf(st: ScanState, locus: string): Result<SummaryRow, Fault>
    requires locus in st.summary && Complete(st.summary[locus])
  {
    var e := st.summary[locus];
    if e.totalDN.None? then Err(MissingField(locus, "total_dN"))
    else if e.totalDS.None? then Err(MissingField(locus, "total_dS"))
    else Ok(SummaryRow(locus, e.kappa.value, e.omega.value, e.totalDN.value, e.totalDS.value,
                       e.summedN / (e.numCompare as real), e.summedS / (e.numCompare as real),
                       |PolyOf(st, locus)|))
  }

  predicate Reportable(st: ScanState, k: string) {
    k in st.summary && Complete(st.summary[k])
  }

  /** The row loop over `keys`, skipping incomplete loci; the first missing
      field stops it. */
  function SummaryRows(st: ScanState, keys: seq<string>): Result<seq<SummaryRow>, Fault>
  {
    if keys == [] then Ok([])
    else
      match SummaryRows(st, keys[..|keys| - 1])
      case Err(f) => Err(f)
      case Ok(rows) =>
        var k := keys[|keys| - 1];
        if !Reportable(st, k) then Ok(rows)
        else
          match RowOf(st, k)
          case Err(f) => Err(f)
          case Ok(row) => Ok(rows + [row])
  }

  /** One more key of the row loop. */
  lemma SummaryRowsNext(st: ScanState, keys: seq<string>, i: nat)
    requires i < |keys| && SummaryRows(st, keys[..i]).Ok?
    ensures var rows := SummaryRows(st, keys[..i]).value;
            SummaryRows(st, keys[..i + 1]) ==
              if !Reportable(st, keys[i]) then Ok(rows)
              else match RowOf(st, keys[i])
                case Err(f) => Err(f)
                case Ok(row) => Ok(rows + [row])
  {
    assert keys[..i + 1][..i] == keys[..i];
  }

  /** The first missing field stops the row loop. */
  lemma {:induction false} SummaryRowsErrPrefix(st: ScanState, keys: seq<string>, k: nat)
    requires k <= |keys| && SummaryRows(st, keys[..k]).Err?
    ensures SummaryRows(st, keys) == SummaryRows(st, keys[..k])
  {
    if k < |keys| {
      var init := keys[..|keys| - 1];
      assert init[..k] == keys[..k];
      SummaryRowsErrPrefix(st, init, k);
    } else {
      assert keys[..k] == keys;
    }
  }

  /** The keys that get a row, in order. */
  function ReportedKeys(st: ScanState, keys: seq<string>): (r: seq<string>)
    ensures forall k :: k in r <==> k in keys && Reportable(st, k)
    ensures forall i :: 0 <= i < |r| ==> Reportable(st, r[i])
  {
    if keys == [] then []
    else
      var rest := ReportedKeys(st, keys[..|keys| - 1]);
      var k := keys[|keys| - 1];
      assert keys == keys[..|keys| - 1] + [k];
      if Reportable(st, k) then rest + [k] else rest
  }

  /** A complete locus that lacks `total_dN` or `total_dS`. */
  predicate Unwritable(st: ScanState, k: string) {
    Reportable(st, k) && (st.summary[k].totalDN.None? || st.summary[k].totalDS.None?)
  }

  /** The loop stops iff some reported key cannot be written. */
  lemma {:induction false} SummaryRowsFail(st: ScanState, keys: seq<string>)
    ensures SummaryRows(st, keys).Err? <==> exists k :: k in keys && Unwritable(st, k)
  {
    if keys != [] {
      var init := keys[..|keys| - 1];
      var k := keys[|keys| - 1];
      assert keys == init + [k];
      SummaryRowsFail(st, init);
      if SummaryRows(st, init).Err? {
        var w :| w in init && Unwritable(st, w);
        assert w in keys;
      } else if Reportable(st, k) && RowOf(st, k).Err? {
        assert Unwritable(st, k);
      } else {
        assert !Unwritable(st, k);
        assert forall w :: w in keys ==> w in init || w == k;
      }
    }
  }

  /** `row` is what the summary says about locus `k`: the record's strings,
      `mean_N = summed_N / num_compare`, `mean_S = summed_S / num_compare`
      and the number of polymorphic sites. */
  predicate RowMatches(st: ScanState, k: string, row: SummaryRow)
    requires k in st.summary
  {
    var e := st.summary[k];
    && row.locus == k
    && Some(row.kappa) == e.kappa && Some(row.omega) == e.omega
    && Some(row.totalDN) == e.totalDN && Some(row.totalDS) == e.totalDS
    && row.meanN * (e.numCompare as real) == e.summedN
    && row.meanS * (e.numCompare as real) == e.summedS
    && row.numPolymorphicSites == |PolyOf(st, k)|
  }

  lemma RowOfMatches(st: ScanState, k: string)
    requires Reportable(st, k) && RowOf(st, k).Ok?
    ensures RowMatches(st, k, RowOf(st, k).value)
  {
  }

  /** The rows are exactly the rows of the reported keys, in order. */
  lemma {:induction false} SummaryRowsValues(st: ScanState, keys: seq<string>)
    requires SummaryRows(st, keys).Ok?
    ensures var rows := SummaryRows(st, keys).value;
            var ks := ReportedKeys(st, keys);
            && |rows| == |ks|
            && forall i :: 0 <= i < |rows| ==> RowMatches(st, ks[i], rows[i])
  {
    if keys != [] {
      var init := keys[..|keys| - 1];
      var k := keys[|keys| - 1];
      SummaryRowsValues(st, init);
      if Reportable(st, k) {
        RowOfMatches(st, k);
        var rows0 := SummaryRows(st, init).value;
        var ks0 := ReportedKeys(st, init);
        assert SummaryRows(st, keys).value == rows0 + [RowOf(st, k).value];
        assert ReportedKeys(st, keys) == ks0 + [k];
      }
    }
  }

  /** Filtering keeps the order: the reported keys of a sorted list are
      sorted. */
  lemma {:induction false} ReportedKeysSorted(st: ScanState, keys: seq<string>)
    requires Sorted(keys)
    ensures Sorted(ReportedKeys(st, keys))
  {
    if keys != [] {
      var init := keys[..|keys| - 1];
      var k := keys[|keys| - 1];
      assert Sorted(init);
      ReportedKeysSorted(st, init);
      var rest := ReportedKeys(st, init);
      if Reportable(st, k) {
        forall i | 0 <= i < |rest| ensures !Lt(k, rest[i]) {
          assert rest[i] in init;
          var j :| 0 <= j < |init| && init[j] == rest[i];
          assert keys[j] == rest[i];
        }
      }
    }
  }

  /** The reported missing loci, from the record order `loci`. */
  function MissingList(st: ScanState, loci: seq<string>): (r: seq<string>)
    ensures forall k :: k in r <==> k in loci && k in MissingLoci(st)
  {
    if loci == [] then []
    else
      var rest := MissingList(st, loci[..|loci| - 1]);
      var k := loci[|loci| - 1];
      assert loci == loci[..|loci| - 1] + [k];
      if k in MissingLoci(st) then rest + [k] else rest
  }

  /** What the run produces: the summary rows, the missing loci in sorted
      order (the stderr line), the branch header and rows, and the trees. */
  datatype Report = Report(
    summary: seq<SummaryRow>,
    missing: seq<string>,
    branchHeader: seq<string>,
    branchRows: seq<seq<string>>,
    trees: map<string, string>)

  /** 6_parse_raw_codeml_files.py:102-144 over the final scanner state. */
  function Finish(st: ScanState): Result<Report, Fault> {
    match SummaryRows(st, SortStrings(st.loci))
    case Err(f) => Err(f)
    case Ok(rows) =>
      if st.branchHeader.None? then Err(NoBranchHeader)
      else Ok(Report(rows, SortStrings(MissingList(st, st.loci)), st.branchHeader.value, st.branchTab, st.trees))
  }

  /** The whole of `parse_dnds` on the listed directory `files`. */
  function ParseBatch(files: seq<CodemlFile>, ext: string, parse: string -> Option<real>): Result<Report, Fault> {
    var m := Matching(files, ext);
    if m == [] then Err(NoInputFiles(ext))
    else
      match ScanFiles(Initial(), m, ext, parse)
      case Err(f) => Err(f)
      case Ok(st) => Finish(st)
  }

  lemma {:induction false} SortedMember(xs: seq<string>, x: string)
    ensures x in SortStrings(xs) <==> x in xs
  {
    assert multiset(SortStrings(xs)) == multiset(xs);
    assert x in SortStrings(xs) <==> x in multiset(SortStrings(xs));
  }

  /** The summary lists the complete loci and only those, in sorted order:
      an incomplete locus is never summarised. */
  lemma FinishSummary(st: ScanState)
    requires st.summary.Keys == set l | l in st.loci
    requires Finish(st).Ok?
    ensures var rep := Finish(st).value;
            && (forall i, j :: 0 <= i < j < |rep.summary| ==> !Lt(rep.summary[j].locus, rep.summary[i].locus))
            && (forall i :: 0 <= i < |rep.summary| ==>
                  rep.summary[i].locus in st.summary && Complete(st.summary[rep.summary[i].locus]))
            && (forall l :: l in st.summary && Complete(st.summary[l]) ==>
                  exists i :: 0 <= i < |rep.summary| && rep.summary[i].locus == l)
  {
    var keys := SortStrings(st.loci);
    SortStringsSorted(st.loci);
    ReportedKeysSorted(st, keys);
    var ks := ReportedKeys(st, keys);
    SummaryRowsValues(st, keys);
    var rows := SummaryRows(st, keys).value;
    assert Finish(st).value.summary == rows;
    forall l | l in st.summary && Complete(st.summary[l])
      ensures exists i :: 0 <= i < |rows| && rows[i].locus == l
    {
      assert l in st.loci;
      SortedMember(st.loci, l);
      var i :| 0 <= i < |ks| && ks[i] == l;
      assert rows[i].locus == l;
    }
  }

  /** The reported missing loci are sorted and are exactly the incomplete
      ones. */
  lemma FinishMissing(st: ScanState)
    requires Finish(st).Ok?
    ensures var rep := Finish(st).value;
            && Sorted(rep.missing)
            && (forall l :: l in rep.missing <==> l in st.loci && l in MissingLoci(st))
  {
    SortStringsSorted(MissingList(st, st.loci));
    forall l ensures l in SortStrings(MissingList(st, st.loci)) <==> l in st.loci && l in MissingLoci(st) {
      SortedMember(MissingList(st, st.loci), l);
    }
  }
}
