/** The line rules of `parse_dnds` (6_parse_raw_codeml_files.py), as pure
    functions over an explicit scanner state. One call of `StepLine` is one
    pass of the body of the inner `for line in lines` loop; `ScanLines` is
    that loop over one file and `ScanFiles` the outer loop over the batch.
    The flag fields of `ScanState` are set up once for the whole batch, so
    they carry over from one file to the next; only `branchObserved` and the
    locus's three counters are reset when a file starts (`BeginFile`). */
module CodemlScan {
  import opened Wrappers
  import opened Text

  const SitePatternBanner: string := "Printing out site pattern counts"
  const TreeLengthPrefix: string := "tree length = "
  const TotalDNPrefix: string := "tree length for dN:"
  const TotalDSPrefix: string := "tree length for dS:"

  /** Why the script stops with an exception. */
  datatype Fault =
    | TooFewTokens(line: string)       // IndexError on `line_split[k]`
    | MissingColumn(column: string)    // ValueError of `line_split.index('N')`
    | BadNumber(token: string)         // ValueError of `float(...)`
    | NoInputFiles(ext: string)        // the `sys.exit(1)` branch
    | MissingField(locus: string, field: string)  // KeyError when writing a summary row
    | NoBranchHeader                   // `branch_header + '\n'` with no header seen

  /** `summary_tab[locus]`: the optional fields stay the strings the script
      stores; the counters are the three keys reset at the start of a file. */
  datatype Locus = Locus(
    kappa: Option<string>,
    omega: Option<string>,
    totalDN: Option<string>,
    totalDS: Option<string>,
    treeLength: Option<string>,
    numSeq: Option<string>,
    numSites: Option<string>,
    numCompare: nat,
    summedN: real,
    summedS: real)

  const EmptyLocus: Locus :=
    Locus(None, None, None, None, None, None, None, 0, 0.0, 0.0)

  /** Everything the loop of `parse_dnds` reads or writes. `loci` is the
      insertion order of `summary_tab`'s keys; `nIndex`, `sIndex` and
      `branchNumCol` are the script's `N_index`, `S_index` and
      `branch_num_col`, which it only reads while `branchObserved` holds. */
  datatype ScanState = ScanState(
    justPrintedSites: bool,
    justParsedCounts: bool,
    nextLineIsPolyBreakdown: bool,
    treeNext: bool,
    polyBreakdownLength: Option<nat>,
    branchHeader: Option<seq<string>>,
    nIndex: nat,
    sIndex: nat,
    branchNumCol: nat,
    branchObserved: bool,
    loci: seq<string>,
    summary: map<string, Locus>,
    polyPos: map<string, set<nat>>,
    trees: map<string, string>,
    branchTab: seq<seq<string>>)

  /** The state before the first file (6_parse_raw_codeml_files.py:23-34). */
  function Initial(): ScanState {
    ScanState(false, false, false, false, None, None, 0, 0, 0, false,
              [], map[], map[], map[], [])
  }

  /** The column indices point into a header row of `branchNumCol` tokens. */
  predicate Wf(st: ScanState) {
    st.branchObserved ==> st.nIndex < st.branchNumCol && st.sIndex < st.branchNumCol
  }

  /** Reading `summary_tab[locus]` and `poly_pos[locus]` (both `defaultdict`s). */
  function Entry(st: ScanState, locus: string): Locus {
    if locus in st.summary then st.summary[locus] else EmptyLocus
  }

  function PolyOf(st: ScanState, locus: string): set<nat> {
    if locus in st.polyPos then st.polyPos[locus] else {}
  }

  function WithEntry(st: ScanState, locus: string, l: Locus): ScanState {
    st.(summary := st.summary[locus := l])
  }

  /** The offsets of the polymorphic columns of one breakdown row: every
      position of `''.join(tokens[1:])` that does not hold a `.`. */
  function RowOffsets(toks: seq<string>): set<nat>
    requires toks != []
  {
    var all := Concat(toks[1..]);
    set i: nat | i < |all| && all[i] != '.'
  }

  /** 6_parse_raw_codeml_files.py:55-61, run on every non-blank line before
      the two rule chains. */
  function Breakdown(st: ScanState, locus: string, toks: seq<string>): (r: ScanState)
    requires toks != []
    ensures r == st.(polyPos := r.polyPos, nextLineIsPolyBreakdown := r.nextLineIsPolyBreakdown)
    ensures r.nextLineIsPolyBreakdown ==> st.nextLineIsPolyBreakdown
  {
    if !st.nextLineIsPolyBreakdown then st
    else if st.polyBreakdownLength.Some? && |toks| == st.polyBreakdownLength.value then
      st.(polyPos := st.polyPos[locus := PolyOf(st, locus) + RowOffsets(toks)])
    else st.(nextLineIsPolyBreakdown := false)
  }

  /** Which branch of the first `if`/`elif` chain takes a non-blank line
      (6_parse_raw_codeml_files.py:63-81). */
  datatype Rule1 = SiteBanner | SiteCounts | BreakdownWidth | KappaLine | OmegaLine
                 | TotalDNLine | TotalDSLine | NoRule1

  function Rule1Of(st: ScanState, line: string, toks: seq<string>): Rule1
    requires toks != []
  {
    if StartsWith(line, SitePatternBanner) then SiteBanner
    else if st.justPrintedSites then SiteCounts
    else if st.justParsedCounts then BreakdownWidth
    else if toks[0] == "kappa" then KappaLine
    else if toks[0] == "omega" then OmegaLine
    else if StartsWith(line, TotalDNPrefix) then TotalDNLine
    else if StartsWith(line, TotalDSPrefix) then TotalDSLine
    else NoRule1
  }

  /** The effect of the first chain. */
  function Chain1(st: ScanState, locus: string, line: string, toks: seq<string>): (r: Result<ScanState, Fault>)
    requires toks != []
    ensures r.Ok? ==> Wf(st) ==> Wf(r.value)
  {
    var e := Entry(st, locus);
    match Rule1Of(st, line, toks)
    case SiteBanner => Ok(st.(justPrintedSites := true))
    case SiteCounts =>
      if |toks| < 2 then Err(TooFewTokens(line))
      else Ok(WithEntry(st, locus, e.(numSeq := Some(toks[0]), numSites := Some(toks[1])))
                .(justPrintedSites := false, justParsedCounts := true))
    case BreakdownWidth =>
      Ok(st.(nextLineIsPolyBreakdown := true, justParsedCounts := false,
             polyBreakdownLength := Some(|toks|)))
    case KappaLine =>
      if |toks| < 4 then Err(TooFewTokens(line))
      else Ok(WithEntry(st, locus, e.(kappa := Some(toks[3]))))
    case OmegaLine =>
      if |toks| < 4 then Err(TooFewTokens(line))
      else Ok(WithEntry(st, locus, e.(omega := Some(toks[3]))))
    case TotalDNLine => Ok(WithEntry(st, locus, e.(totalDN := Some(toks[|toks| - 1]))))
    case TotalDSLine => Ok(WithEntry(st, locus, e.(totalDS := Some(toks[|toks| - 1]))))
    case NoRule1 => Ok(st)
  }

  /** Which branch of the second, independent chain takes a non-blank line
      (6_parse_raw_codeml_files.py:82-100). */
  datatype Rule2 = TreeLengthLine | TreeText | BranchHeader | BranchRow | NoRule2

  function Rule2Of(st: ScanState, line: string, toks: seq<string>): Rule2
    requires toks != []
  {
    if StartsWith(line, TreeLengthPrefix) then TreeLengthLine
    else if st.treeNext then TreeText
    else if toks[0] == "branch" then BranchHeader
    else if st.branchObserved && |toks| == st.branchNumCol then BranchRow
    else NoRule2
  }

  /** A `branch` header line (6_parse_raw_codeml_files.py:89-95): the first
      header of the batch is kept; the first `N` and `S` columns give the
      indices, a missing one stopping the run. */
  function HeaderLine(st: ScanState, toks: seq<string>): (r: Result<ScanState, Fault>)
    ensures r.Ok? ==> Wf(r.value)
  {
    var n := IndexOf(toks, "N");
    var s := IndexOf(toks, "S");
    if n.None? then Err(MissingColumn("N"))
    else if s.None? then Err(MissingColumn("S"))
    else Ok(st.(branchHeader := if st.branchHeader.None? then Some(["locus"] + toks) else st.branchHeader,
                nIndex := n.value, sIndex := s.value, branchNumCol := |toks|, branchObserved := true))
  }

  /** The effect of the second chain. `parse` stands for Python's `float()`. */
  function Chain2(st: ScanState, locus: string, line: string, toks: seq<string>,
                  parse: string -> Option<real>): (r: Result<ScanState, Fault>)
    requires toks != [] && Wf(st)
    ensures r.Ok? ==> Wf(r.value)
  {
    var e := Entry(st, locus);
    match Rule2Of(st, line, toks)
    case TreeLengthLine =>
      Ok(WithEntry(st, locus, e.(treeLength := Some(toks[|toks| - 1]))).(treeNext := true))
    case TreeText =>
      Ok(st.(trees := st.trees[locus := RStrip(line)], treeNext := false))
    case BranchHeader => HeaderLine(st, toks)
    case BranchRow =>
      var vn := parse(toks[st.nIndex]);
      var vs := parse(toks[st.sIndex]);
      if vn.None? then Err(BadNumber(toks[st.nIndex]))
      else if vs.None? then Err(BadNumber(toks[st.sIndex]))
      else Ok(WithEntry(st, locus, e.(numCompare := e.numCompare + 1,
                                      summedN := e.summedN + vn.value,
                                      summedS := e.summedS + vs.value))
                .(branchTab := st.branchTab + [[locus] + toks]))
    case NoRule2 => Ok(st)
  }

  /** One pass of the line loop: blank lines are skipped; otherwise the
      breakdown check, then chain one, then chain two. */
  function StepLine(st: ScanState, locus: string, line: string,
                    parse: string -> Option<real>): (r: Result<ScanState, Fault>)
    requires Wf(st)
    ensures r.Ok? ==> Wf(r.value)
  {
    var toks := Split(line);
    if toks == [] then Ok(st)
    else
      match Chain1(Breakdown(st, locus, toks), locus, line, toks)
      case Err(f) => Err(f)
      case Ok(st1) => Chain2(st1, locus, line, toks, parse)
  }

  /** The line loop over one file, as a fold from the left (written by its
      last step, so that a loop that has handled `lines[..i]` is at
      `ScanLines(st, locus, lines[..i], parse)`). */
  function ScanLines(st: ScanState, locus: string, lines: seq<string>,
                     parse: string -> Option<real>): (r: Result<ScanState, Fault>)
    requires Wf(st)
    ensures r.Ok? ==> Wf(r.value)
  {
    if lines == [] then Ok(st)
    else
      match ScanLines(st, locus, lines[..|lines| - 1], parse)
      case Err(f) => Err(f)
      case Ok(st1) => StepLine(st1, locus, lines[|lines| - 1], parse)
  }

  /** Entering a file (6_parse_raw_codeml_files.py:38-45): `branch_observed`
      is cleared and the locus's counters restart at zero; every other field
      of the locus, and every flag, is kept. */
  function BeginFile(st: ScanState, locus: string): (r: ScanState) {
    st.(branchObserved := false,
        loci := if locus in st.summary then st.loci else st.loci + [locus],
        summary := st.summary[locus := Entry(st, locus).(numCompare := 0, summedN := 0.0, summedS := 0.0)])
  }

  datatype CodemlFile = CodemlFile(name: string, lines: seq<string>)

  /** `f.replace(ext, '')` (6_parse_raw_codeml_files.py:41). */
  function LocusId(name: string, ext: string): string {
    Replace(name, ext, [])
  }

  /** `[f for f in files if f.endswith(ext)]`. */
  function Matching(files: seq<CodemlFile>, ext: string): (r: seq<CodemlFile>)
    ensures forall i :: 0 <= i < |r| ==> EndsWith(r[i].name, ext)
    ensures forall f :: f in files && EndsWith(f.name, ext) ==> f in r
    ensures forall f :: f in r ==> f in files
  {
    if files == [] then []
    else
      var rest := Matching(files[..|files| - 1], ext);
      var f := files[|files| - 1];
      assert files == files[..|files| - 1] + [f];
      if EndsWith(f.name, ext) then rest + [f] else rest
  }

  /** The filter keeps the listing order: filtering `a + b` is filtering
      `a`, then `b`. */
  lemma {:induction false} MatchingAppend(a: seq<CodemlFile>, b: seq<CodemlFile>, ext: string)
    ensures Matching(a + b, ext) == Matching(a, ext) + Matching(b, ext)
    decreases |b|
  {
    if b == [] {
      assert a + b == a;
    } else {
      var init := b[..|b| - 1];
      assert (a + b)[..|a + b| - 1] == a + init;
      assert (a + b)[|a + b| - 1] == b[|b| - 1];
      MatchingAppend(a, init, ext);
    }
  }

  function ScanFile(st: ScanState, f: CodemlFile, ext: string,
                    parse: string -> Option<real>): (r: Result<ScanState, Fault>)
    requires Wf(st)
    ensures r.Ok? ==> Wf(r.value)
  {
    ScanLines(BeginFile(st, LocusId(f.name, ext)), LocusId(f.name, ext), f.lines, parse)
  }

  /** The file loop (6_parse_raw_codeml_files.py:36-100). */
  function ScanFiles(st: ScanState, files: seq<CodemlFile>, ext: string,
                     parse: string -> Option<real>): (r: Result<ScanState, Fault>)
    requires Wf(st)
    ensures r.Ok? ==> Wf(r.value)
  {
    if files == [] then Ok(st)
    else
      match ScanFiles(st, files[..|files| - 1], ext, parse)
      case Err(f) => Err(f)
      case Ok(st1) => ScanFile(st1, files[|files| - 1], ext, parse)
  }
}
