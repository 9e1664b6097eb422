/** `parse_dnds` as the program runs it: one scanner object holding the
    variables its loops update, the line and file loops, the completeness
    loop and the summary loop. Each is proved to compute the functions of
    `CodemlScan` and `CodemlReport`. */
module CodemlBatch {
  import opened Wrappers
  import opened Text
  import opened CodemlScan
  import opened CodemlReport
  import CodemlProps

  /** A method ran as `r` says: a fault exactly when `r` is one, and
      otherwise the new state `now` is `r`'s. */
  predicate Outcome(r: Result<ScanState, Fault>, fault: Option<Fault>, now: ScanState) {
    && (fault.None? <==> r.Ok?)
    && (r.Ok? ==> now == r.value)
    && (r.Err? ==> fault == Some(r.error))
  }

  /** The variables of `parse_dnds` that the loop over lines reads and
      writes (6_parse_raw_codeml_files.py:23-34, 38). */
  class Scanner {
    var justPrintedSites: bool
    var justParsedCounts: bool
    var nextLineIsPolyBreakdown: bool
    var treeNext: bool
    var polyBreakdownLength: Option<nat>
    var branchHeader: Option<seq<string>>
    var nIndex: nat
    var sIndex: nat
    var branchNumCol: nat
    var branchObserved: bool
    var loci: seq<string>
    var summary: map<string, Locus>
    var polyPos: map<string, set<nat>>
    var trees: map<string, string>
    var branchTab: seq<seq<string>>

    function State(): ScanState
      reads this
    {
      ScanState(justPrintedSites, justParsedCounts, nextLineIsPolyBreakdown, treeNext,
                polyBreakdownLength, branchHeader, nIndex, sIndex, branchNumCol, branchObserved,
                loci, summary, polyPos, trees, branchTab)
    }

    constructor ()
      ensures State() == Initial()
    {
      justPrintedSites, justParsedCounts, nextLineIsPolyBreakdown, treeNext := false, false, false, false;
      polyBreakdownLength, branchHeader := None, None;
      nIndex, sIndex, branchNumCol, branchObserved := 0, 0, 0, false;
      loci, summary, polyPos, trees, branchTab := [], map[], map[], map[], [];
    }

    /** 6_parse_raw_codeml_files.py:38-45. */
    method BeginFile(locus: string)
      modifies this
      ensures State() == CodemlScan.BeginFile(old(State()), locus)
    {
      branchObserved := false;
      var e := Entry(State(), locus);
      if locus !in summary {
        loci := loci + [locus];
      }
      summary := summary[locus := e.(numCompare := 0, summedN := 0.0, summedS := 0.0)];
    }

    /** 6_parse_raw_codeml_files.py:55-61. */
    method BreakdownCheck(locus: string, toks: seq<string>)
      requires toks != []
      modifies this
      ensures State() == Breakdown(old(State()), locus, toks)
    {
      if nextLineIsPolyBreakdown {
        if polyBreakdownLength.Some? && |toks| == polyBreakdownLength.value {
          polyPos := polyPos[locus := PolyOf(State(), locus) + RowOffsets(toks)];
        } else {
          nextLineIsPolyBreakdown := false;
        }
      }
    }

    /** Chain one's action for the rule that takes the line. */
    method SiteCountsAction(locus: string, line: string, toks: seq<string>) returns (fault: Option<Fault>)
      requires toks != [] && Rule1Of(State(), line, toks) == SiteCounts
      modifies this
      ensures Outcome(Chain1(old(State()), locus, line, toks), fault, State())
    {
      if |toks| < 2 {
        return Some(TooFewTokens(line));
      }
      fault := None;
      justPrintedSites := false;
      summary := summary[locus := Entry(State(), locus).(numSeq := Some(toks[0]), numSites := Some(toks[1]))];
      justParsedCounts := true;
    }

    method ParamAction(locus: string, line: string, toks: seq<string>) returns (fault: Option<Fault>)
      requires toks != [] && Rule1Of(State(), line, toks) in {KappaLine, OmegaLine}
      modifies this
      ensures Outcome(Chain1(old(State()), locus, line, toks), fault, State())
    {
      if |toks| < 4 {
        return Some(TooFewTokens(line));
      }
      fault := None;
      var e := Entry(State(), locus);
      if toks[0] == "kappa" {
        summary := summary[locus := e.(kappa := Some(toks[3]))];
      } else {
        summary := summary[locus := e.(omega := Some(toks[3]))];
      }
    }

    method TotalAction(locus: string, line: string, toks: seq<string>)
      requires toks != [] && Rule1Of(State(), line, toks) in {TotalDNLine, TotalDSLine}
      modifies this
      ensures Outcome(Chain1(old(State()), locus, line, toks), None, State())
    {
      var e := Entry(State(), locus);
      if StartsWith(line, TotalDNPrefix) {
        summary := summary[locus := e.(totalDN := Some(toks[|toks| - 1]))];
      } else {
        summary := summary[locus := e.(totalDS := Some(toks[|toks| - 1]))];
      }
    }

    /** 6_parse_raw_codeml_files.py:63-81; a fault is the exception that
        stops the run, after which the state no longer matters. */
    method FirstChain(locus: string, line: string, toks: seq<string>) returns (fault: Option<Fault>)
      requires toks != []
      modifies this
      ensures Outcome(Chain1(old(State()), locus, line, toks), fault, State())
    {
      fault := None;
      if StartsWith(line, SitePatternBanner) {
        justPrintedSites := true;
      } else if justPrintedSites {
        fault := SiteCountsAction(locus, line, toks);
      } else if justParsedCounts {
        nextLineIsPolyBreakdown := true;
        justParsedCounts := false;
        polyBreakdownLength := Some(|toks|);
      } else if toks[0] == "kappa" || toks[0] == "omega" {
        fault := ParamAction(locus, line, toks);
      } else if StartsWith(line, TotalDNPrefix) || StartsWith(line, TotalDSPrefix) {
        TotalAction(locus, line, toks);
      }
    }

    /** Chain two's action for the rule that takes the line. */
    method BranchHeaderAction(toks: seq<string>)
      returns (fault: Option<Fault>)
      modifies this
      ensures Outcome(HeaderLine(old(State()), toks), fault, State())
    {
      ghost var prev := State();
      if branchHeader.None? {
        branchHeader := Some(["locus"] + toks);
      }
      var n := IndexOf(toks, "N");
      var s := IndexOf(toks, "S");
      if n.None? || s.None? {
        return Some(if n.None? then MissingColumn("N") else MissingColumn("S"));
      }
      fault := None;
      nIndex, sIndex, branchNumCol, branchObserved := n.value, s.value, |toks|, true;
      assert State() == prev.(branchHeader := branchHeader, nIndex := n.value, sIndex := s.value,
                              branchNumCol := |toks|, branchObserved := true);
    }

    method BranchRowAction(locus: string, line: string, toks: seq<string>, parse: string -> Option<real>)
      returns (fault: Option<Fault>)
      requires toks != [] && Wf(State()) && Rule2Of(State(), line, toks) == BranchRow
      modifies this
      ensures Outcome(Chain2(old(State()), locus, line, toks, parse), fault, State())
    {
      var e := Entry(State(), locus);
      var vn := parse(toks[nIndex]);
      var vs := parse(toks[sIndex]);
      if vn.None? {
        return Some(BadNumber(toks[nIndex]));
      }
      if vs.None? {
        return Some(BadNumber(toks[sIndex]));
      }
      fault := None;
      branchTab := branchTab + [[locus] + toks];
      summary := summary[locus := e.(numCompare := e.numCompare + 1,
                                     summedN := e.summedN + vn.value,
                                     summedS := e.summedS + vs.value)];
    }

    /** 6_parse_raw_codeml_files.py:82-100. */
    method SecondChain(locus: string, line: string, toks: seq<string>, parse: string -> Option<real>)
      returns (fault: Option<Fault>)
      requires toks != [] && Wf(State())
      modifies this
      ensures Outcome(Chain2(old(State()), locus, line, toks, parse), fault, State())
    {
      fault := None;
      if StartsWith(line, TreeLengthPrefix) {
        summary := summary[locus := Entry(State(), locus).(treeLength := Some(toks[|toks| - 1]))];
        treeNext := true;
      } else if treeNext {
        trees := trees[locus := RStrip(line)];
        treeNext := false;
      } else if toks[0] == "branch" {
        fault := BranchHeaderAction(toks);
      } else if branchObserved && |toks| == branchNumCol {
        fault := BranchRowAction(locus, line, toks, parse);
      }
    }

    /** One pass of the body of `for line in lines`
        (6_parse_raw_codeml_files.py:50-100). */
    method ScanLine(locus: string, line: string, parse: string -> Option<real>) returns (fault: Option<Fault>)
      requires Wf(State())
      modifies this
      ensures Outcome(StepLine(old(State()), locus, line, parse), fault, State())
    {
      var toks := Split(line);
      if toks == [] {
        return None;
      }
      BreakdownCheck(locus, toks);
      fault := FirstChain(locus, line, toks);
      if fault.Some? {
        return;
      }
      fault := SecondChain(locus, line, toks, parse);
    }
  }

  /** The completeness loop (6_parse_raw_codeml_files.py:103-110), over the
      loci in the order they were first seen; the set is kept as a list
      without repeats. */
  method IncompleteLoci(st: ScanState) returns (missing: seq<string>)
    requires st.summary.Keys == set l | l in st.loci
    ensures missing == MissingList(st, st.loci)
  {
    missing := [];
    var i := 0;
    while i < |st.loci|
      invariant 0 <= i <= |st.loci|
      invariant missing == MissingList(st, st.loci[..i])
    {
      var locus := st.loci[i];
      assert locus in st.summary;
      assert st.loci[..i + 1][..i] == st.loci[..i];
      var e := st.summary[locus];
      if e.kappa.None? {
        missing := missing + [locus];
      } else if e.omega.None? {
        missing := missing + [locus];
      } else if e.numCompare == 0 {
        missing := missing + [locus];
      }
      i := i + 1;
    }
    assert st.loci[..i] == st.loci;
  }

  /** The summary loop (6_parse_raw_codeml_files.py:121-139): rows in sorted
      locus order, incomplete loci skipped. */
  method SummaryTable(st: ScanState, missing: seq<string>) returns (r: Result<seq<SummaryRow>, Fault>)
    requires st.summary.Keys == set l | l in st.loci
    requires missing == MissingList(st, st.loci)
    ensures r == SummaryRows(st, SortStrings(st.loci))
  {
    var keys := SortStrings(st.loci);
    var rows := [];
    var i := 0;
    while i < |keys|
      invariant 0 <= i <= |keys|
      invariant SummaryRows(st, keys[..i]) == Ok(rows)
    {
      var locus := keys[i];
      SummaryRowsNext(st, keys, i);
      SortedMember(st.loci, locus);
      assert locus in st.summary;
      assert (locus in missing) == !Reportable(st, locus);
      if locus !in missing {
        var e := st.summary[locus];
        if e.totalDN.None? || e.totalDS.None? {
          var f := if e.totalDN.None? then MissingField(locus, "total_dN") else MissingField(locus, "total_dS");
          assert SummaryRows(st, keys[..i + 1]) == Err(f);
          SummaryRowsErrPrefix(st, keys, i + 1);
          return Err(f);
        }
        var meanN := e.summedN / (e.numCompare as real);
        var meanS := e.summedS / (e.numCompare as real);
        var row := SummaryRow(locus, e.kappa.value, e.omega.value, e.totalDN.value, e.totalDS.value,
                              meanN, meanS, |PolyOf(st, locus)|);
        assert RowOf(st, locus) == Ok(row);
        rows := rows + [row];
      }
      assert SummaryRows(st, keys[..i + 1]) == Ok(rows);
      i := i + 1;
    }
    assert keys[..i] == keys;
    return Ok(rows);
  }

  /** The loop over the lines of one file, run on `sc` (6_parse_raw_codeml_files.py:49-100). */
  method ScanFileLines(sc: Scanner, locus: string, lines: seq<string>, parse: string -> Option<real>)
    returns (fault: Option<Fault>)
    requires Wf(sc.State())
    modifies sc
    ensures Outcome(ScanLines(old(sc.State()), locus, lines, parse), fault, sc.State())
  {
    ghost var s0 := sc.State();
    var j := 0;
    while j < |lines|
      invariant 0 <= j <= |lines|
      invariant Wf(sc.State())
      invariant ScanLines(s0, locus, lines[..j], parse) == Ok(sc.State())
    {
      CodemlProps.ScanLinesNext(s0, locus, lines, j, parse);
      fault := sc.ScanLine(locus, lines[j], parse);
      if fault.Some? {
        CodemlProps.ScanLinesErrPrefix(s0, locus, lines, j + 1, parse);
        return;
      }
      j := j + 1;
    }
    assert lines[..j] == lines;
    return None;
  }

  /** The loop over the files (6_parse_raw_codeml_files.py:36-100). */
  method ScanAll(m: seq<CodemlFile>, ext: string, parse: string -> Option<real>) returns (r: Result<ScanState, Fault>)
    ensures r == ScanFiles(Initial(), m, ext, parse)
  {
    var sc := new Scanner();
    var i := 0;
    while i < |m|
      invariant 0 <= i <= |m|
      invariant ScanFiles(Initial(), m[..i], ext, parse) == Ok(sc.State())
      invariant Wf(sc.State())
    {
      var f := m[i];
      var locus := LocusId(f.name, ext);
      ghost var prev := sc.State();
      CodemlProps.ScanFilesNext(Initial(), m, i, ext, parse);
      assert ScanFile(prev, f, ext, parse) == ScanLines(CodemlScan.BeginFile(prev, locus), locus, f.lines, parse);
      sc.BeginFile(locus);
      var fault := ScanFileLines(sc, locus, f.lines, parse);
      if fault.Some? {
        CodemlProps.ScanFilesErrPrefix(Initial(), m, i + 1, ext, parse);
        return Err(fault.value);
      }
      i := i + 1;
    }
    assert m[..i] == m;
    return Ok(sc.State());
  }

  /** `parse_dnds` on the listed directory `files`: the file loop, the
      completeness check, the summary rows and the branch header. */
  method ParseDnds(files: seq<CodemlFile>, ext: string, parse: string -> Option<real>)
    returns (r: Result<Report, Fault>)
    ensures r == ParseBatch(files, ext, parse)
  {
    var m := Matching(files, ext);
    if |m| == 0 {
      return Err(NoInputFiles(ext));
    }
    var scanned := ScanAll(m, ext, parse);
    if scanned.Err? {
      return Err(scanned.error);
    }
    var st := scanned.value;
    CodemlProps.FilesKeepLociWf(Initial(), m, ext, parse);
    var missing := IncompleteLoci(st);
    var rows := SummaryTable(st, missing);
    if rows.Err? {
      return Err(rows.error);
    }
    if st.branchHeader.None? {
      return Err(NoBranchHeader);
    }
    return Ok(Report(rows.value, SortStrings(missing), st.branchHeader.value, st.branchTab, st.trees));
  }
}
