/** What the line rules of `parse_dnds` guarantee, proved about the
    functions of `CodemlScan`. */
module CodemlProps {
  import opened Wrappers
  import opened Text
  import opened CodemlScan

  // ---------------------------------------------------------------- folds

  /** Scanning `a + b` is scanning `a` and then, from where that stopped,
      `b`; a fault in `a` is the fault of the whole. */
  lemma {:induction false} ScanAppend(st: ScanState, locus: string, a: seq<string>, b: seq<string>,
                                      parse: string -> Option<real>)
    requires Wf(st)
    ensures ScanLines(st, locus, a + b, parse) ==
            match ScanLines(st, locus, a, parse)
            case Err(f) => Err(f)
            case Ok(s) => ScanLines(s, locus, b, parse)
    decreases |b|
  {
    if b == [] {
      assert a + b == a;
    } else {
      var b' := b[..|b| - 1];
      assert (a + b)[..|a + b| - 1] == a + b';
      assert (a + b)[|a + b| - 1] == b[|b| - 1];
      ScanAppend(st, locus, a, b', parse);
    }
  }

  /** A fault stops the line loop: once a prefix of the file has failed,
      the whole file fails with the same fault. */
  lemma {:induction false} ScanLinesErrPrefix(st: ScanState, locus: string, lines: seq<string>, k: nat,
                                              parse: string -> Option<real>)
    requires Wf(st) && k <= |lines| && ScanLines(st, locus, lines[..k], parse).Err?
    ensures ScanLines(st, locus, lines, parse) == ScanLines(st, locus, lines[..k], parse)
  {
    if k < |lines| {
      var init := lines[..|lines| - 1];
      assert init[..k] == lines[..k];
      ScanLinesErrPrefix(st, locus, init, k, parse);
    } else {
      assert lines[..k] == lines;
    }
  }

  /** One more line of the loop. */
  lemma ScanLinesNext(st: ScanState, locus: string, lines: seq<string>, j: nat, parse: string -> Option<real>)
    requires Wf(st) && j < |lines| && ScanLines(st, locus, lines[..j], parse).Ok?
    ensures ScanLines(st, locus, lines[..j + 1], parse) ==
            StepLine(ScanLines(st, locus, lines[..j], parse).value, locus, lines[j], parse)
  {
    assert lines[..j + 1][..j] == lines[..j];
  }

  /** One more file of the file loop. */
  lemma ScanFilesNext(st: ScanState, files: seq<CodemlFile>, i: nat, ext: string, parse: string -> Option<real>)
    requires Wf(st) && i < |files| && ScanFiles(st, files[..i], ext, parse).Ok?
    ensures ScanFiles(st, files[..i + 1], ext, parse) == ScanFile(ScanFiles(st, files[..i], ext, parse).value, files[i], ext, parse)
  {
    assert files[..i + 1][..i] == files[..i];
  }

  /** Likewise for the file loop. */
  lemma {:induction false} ScanFilesErrPrefix(st: ScanState, files: seq<CodemlFile>, k: nat, ext: string,
                                              parse: string -> Option<real>)
    requires Wf(st) && k <= |files| && ScanFiles(st, files[..k], ext, parse).Err?
    ensures ScanFiles(st, files, ext, parse) == ScanFiles(st, files[..k], ext, parse)
  {
    if k < |files| {
      var init := files[..|files| - 1];
      assert init[..k] == files[..k];
      ScanFilesErrPrefix(st, init, k, ext, parse);
    } else {
      assert files[..k] == files;
    }
  }

  function NonBlank(lines: seq<string>): (r: seq<string>)
    ensures forall i :: 0 <= i < |r| ==> Split(r[i]) != []
  {
    if lines == [] then []
    else
      var rest := NonBlank(lines[..|lines| - 1]);
      if Split(lines[|lines| - 1]) == [] then rest else rest + [lines[|lines| - 1]]
  }

  /** A line without tokens leaves the whole state as it was... */
  lemma BlankLineSkipped(st: ScanState, locus: string, line: string, parse: string -> Option<real>)
    requires Wf(st) && Split(line) == []
    ensures StepLine(st, locus, line, parse) == Ok(st)
  {
  }

  /** ...so every "next line" of the rules is the next non-blank line: a file
      scans exactly as the same file with its blank lines taken out. */
  lemma {:induction false} BlankLinesIrrelevant(st: ScanState, locus: string, lines: seq<string>,
                                                parse: string -> Option<real>)
    requires Wf(st)
    ensures ScanLines(st, locus, lines, parse) == ScanLines(st, locus, NonBlank(lines), parse)
  {
    if lines != [] {
      var init := lines[..|lines| - 1];
      var last := lines[|lines| - 1];
      BlankLinesIrrelevant(st, locus, init, parse);
      if Split(last) != [] {
        var nb := NonBlank(init) + [last];
        assert nb[..|nb| - 1] == NonBlank(init);
      }
    }
  }

  // -------------------------------------------------- tokens of a prefix

  /** A `tree length = ` line splits into `tree`, `length`, `=` and the
      tokens after them. */
  lemma TreeLengthFirstToken(line: string)
    requires StartsWith(line, TreeLengthPrefix)
    ensures |Split(line)| >= 3
    ensures Split(line)[0] == "tree" && Split(line)[1] == "length" && Split(line)[2] == "="
  {
    var rest := line[|TreeLengthPrefix|..];
    assert line == TreeLengthPrefix + rest;
    assert TreeLengthPrefix + rest == "tree" + [' '] + ("length" + [' '] + ("=" + [' '] + rest));
    LowerNoSpace("tree");
    LowerNoSpace("length");
    ThreeWords("tree", "length", "=", rest);
  }

  lemma ThreeWords(a: string, b: string, c: string, rest: string)
    requires a != [] && NoSpace(a) && b != [] && NoSpace(b) && c != [] && NoSpace(c)
    ensures var t := Split(a + [' '] + (b + [' '] + (c + [' '] + rest)));
            |t| >= 3 && t[0] == a && t[1] == b && t[2] == c
  {
    var r2 := c + [' '] + rest;
    var r1 := b + [' '] + r2;
    SplitWordSpace(a, ' ', r1);
    SplitWordSpace(b, ' ', r2);
    SplitWordSpace(c, ' ', rest);
  }

  lemma LowerNoSpace(w: string)
    requires forall i :: 0 <= i < |w| ==> 'a' <= w[i] <= 'z'
    ensures NoSpace(w)
  {
  }

  /** The site-pattern banner has first token `Printing`. */
  lemma BannerFirstToken(line: string)
    requires StartsWith(line, SitePatternBanner)
    ensures Split(line) != [] && Split(line)[0] == "Printing"
  {
    assert line[..8] == SitePatternBanner[..8] == "Printing";
    assert line[8] == SitePatternBanner[8] == ' ';
    SplitWord(line, "Printing");
  }

  // ------------------------------------------------ what each chain touches

  /** The fields chain one may change: its flags, the breakdown width (only
      to the width of the line), and the chain-one fields of the current
      locus's record. */
  ghost predicate Frame1(st: ScanState, s: ScanState, locus: string, toks: seq<string>) {
    && s.treeNext == st.treeNext && s.trees == st.trees && s.branchHeader == st.branchHeader
    && s.nIndex == st.nIndex && s.sIndex == st.sIndex && s.branchNumCol == st.branchNumCol
    && s.branchObserved == st.branchObserved && s.loci == st.loci && s.polyPos == st.polyPos
    && s.branchTab == st.branchTab
    && (st.nextLineIsPolyBreakdown ==> s.nextLineIsPolyBreakdown)
    && (s.polyBreakdownLength == st.polyBreakdownLength || s.polyBreakdownLength == Some(|toks|))
    && (s.summary.Keys == st.summary.Keys || s.summary.Keys == st.summary.Keys + {locus})
    && (forall l :: l != locus ==> Entry(s, l) == Entry(st, l))
    && Entry(s, locus).treeLength == Entry(st, locus).treeLength
    && Entry(s, locus).numCompare == Entry(st, locus).numCompare
    && Entry(s, locus).summedN == Entry(st, locus).summedN
    && Entry(s, locus).summedS == Entry(st, locus).summedS
  }

  /** The fields chain two may change: the tree capture, the branch schema
      and table, and the chain-two fields of the current locus's record. */
  ghost predicate Frame2(st: ScanState, s: ScanState, locus: string) {
    && s.justPrintedSites == st.justPrintedSites && s.justParsedCounts == st.justParsedCounts
    && s.nextLineIsPolyBreakdown == st.nextLineIsPolyBreakdown
    && s.polyBreakdownLength == st.polyBreakdownLength
    && s.loci == st.loci && s.polyPos == st.polyPos
    && (s.summary.Keys == st.summary.Keys || s.summary.Keys == st.summary.Keys + {locus})
    && (forall l :: l != locus ==> Entry(s, l) == Entry(st, l))
    && Entry(s, locus).kappa == Entry(st, locus).kappa
    && Entry(s, locus).omega == Entry(st, locus).omega
    && Entry(s, locus).totalDN == Entry(st, locus).totalDN
    && Entry(s, locus).totalDS == Entry(st, locus).totalDS
    && Entry(s, locus).numSeq == Entry(st, locus).numSeq
    && Entry(s, locus).numSites == Entry(st, locus).numSites
  }

  /** A `summary_tab[locus] = ...` write changes that record only. */
  lemma WithEntryFrame(st: ScanState, locus: string, l: Locus)
    ensures var s := WithEntry(st, locus, l);
            && s.summary.Keys == st.summary.Keys + {locus}
            && Entry(s, locus) == l
            && (forall o :: o != locus ==> Entry(s, o) == Entry(st, o))
  {
  }

  /** Everything chain one does, rule by rule: it stops the run only on a
      site-count, kappa or omega line that is too short; it changes only its
      own fields; it sets `num_seq` and `num_sites` exactly on the counts
      rule, to the 1st and 2nd tokens; `kappa` (`omega`) exactly on the
      kappa (omega) rule, to the 4th token; and `total_dN` (`total_dS`)
      exactly on its rule, to the last token. */
  ghost predicate Chain1Spec(st: ScanState, locus: string, line: string, toks: seq<string>)
    requires toks != []
  {
    var r := Chain1(st, locus, line, toks);
    var rule := Rule1Of(st, line, toks);
    var e := Entry(st, locus);
    var last := toks[|toks| - 1];
    && (r.Err? ==> rule in {SiteCounts, KappaLine, OmegaLine})
    && (rule == SiteCounts && |toks| < 2 ==> r == Err(TooFewTokens(line)))
    && (rule in {KappaLine, OmegaLine} && |toks| < 4 ==> r == Err(TooFewTokens(line)))
    && (r.Ok? ==>
        var n := Entry(r.value, locus);
        && Frame1(st, r.value, locus, toks)
        && (rule == SiteCounts ==> |toks| >= 2)
        && (rule in {KappaLine, OmegaLine} ==> |toks| >= 4)
        && n.numSeq == (if rule == SiteCounts then Some(toks[0]) else e.numSeq)
        && n.numSites == (if rule == SiteCounts && |toks| >= 2 then Some(toks[1]) else e.numSites)
        && n.kappa == (if rule == KappaLine && |toks| >= 4 then Some(toks[3]) else e.kappa)
        && n.omega == (if rule == OmegaLine && |toks| >= 4 then Some(toks[3]) else e.omega)
        && n.totalDN == (if rule == TotalDNLine then Some(last) else e.totalDN)
        && n.totalDS == (if rule == TotalDSLine then Some(last) else e.totalDS))
  }

  lemma Chain1Unchanged(st: ScanState, locus: string, line: string, toks: seq<string>)
    requires toks != [] && Rule1Of(st, line, toks) in {SiteBanner, BreakdownWidth, NoRule1}
    ensures Chain1Spec(st, locus, line, toks)
  {
  }

  lemma Chain1Counts(st: ScanState, locus: string, line: string, toks: seq<string>)
    requires toks != [] && Rule1Of(st, line, toks) == SiteCounts
    ensures Chain1Spec(st, locus, line, toks)
  {
    if |toks| >= 2 {
      WithEntryFrame(st, locus, Entry(st, locus).(numSeq := Some(toks[0]), numSites := Some(toks[1])));
    }
  }

  lemma Chain1Kappa(st: ScanState, locus: string, line: string, toks: seq<string>)
    requires toks != [] && Rule1Of(st, line, toks) == KappaLine
    ensures Chain1Spec(st, locus, line, toks)
  {
    if |toks| >= 4 {
      WithEntryFrame(st, locus, Entry(st, locus).(kappa := Some(toks[3])));
    }
  }

  lemma Chain1Omega(st: ScanState, locus: string, line: string, toks: seq<string>)
    requires toks != [] && Rule1Of(st, line, toks) == OmegaLine
    ensures Chain1Spec(st, locus, line, toks)
  {
    if |toks| >= 4 {
      WithEntryFrame(st, locus, Entry(st, locus).(omega := Some(toks[3])));
    }
  }

  lemma Chain1TotalDN(st: ScanState, locus: string, line: string, toks: seq<string>)
    requires toks != [] && Rule1Of(st, line, toks) == TotalDNLine
    ensures Chain1Spec(st, locus, line, toks)
  {
    WithEntryFrame(st, locus, Entry(st, locus).(totalDN := Some(toks[|toks| - 1])));
  }

  lemma Chain1TotalDS(st: ScanState, locus: string, line: string, toks: seq<string>)
    requires toks != [] && Rule1Of(st, line, toks) == TotalDSLine
    ensures Chain1Spec(st, locus, line, toks)
  {
    WithEntryFrame(st, locus, Entry(st, locus).(totalDS := Some(toks[|toks| - 1])));
  }

  lemma Chain1Facts(st: ScanState, locus: string, line: string, toks: seq<string>)
    requires toks != []
    ensures Chain1Spec(st, locus, line, toks)
  {
    var rule := Rule1Of(st, line, toks);
    if rule == SiteCounts {
      Chain1Counts(st, locus, line, toks);
    } else if rule == KappaLine {
      Chain1Kappa(st, locus, line, toks);
    } else if rule == OmegaLine {
      Chain1Omega(st, locus, line, toks);
    } else if rule == TotalDNLine {
      Chain1TotalDN(st, locus, line, toks);
    } else if rule == TotalDSLine {
      Chain1TotalDS(st, locus, line, toks);
    } else {
      Chain1Unchanged(st, locus, line, toks);
    }
  }

  /** Everything chain two does, rule by rule: it changes only its own
      fields, and it appends one tagged row to the branch table, counts one
      comparison and adds the parsed `N` and `S` values exactly on the
      branch-row rule. */
  ghost predicate Chain2Spec(st: ScanState, locus: string, line: string, toks: seq<string>, parse: string -> Option<real>)
    requires toks != [] && Wf(st)
  {
    var r := Chain2(st, locus, line, toks, parse);
    var fires := Rule2Of(st, line, toks) == BranchRow;
    r.Ok? ==>
    && Frame2(st, r.value, locus)
    && r.value.branchTab == st.branchTab + (if fires then [[locus] + toks] else [])
    && Entry(r.value, locus).numCompare == Entry(st, locus).numCompare + (if fires then 1 else 0)
    && (fires ==>
        && parse(toks[st.nIndex]).Some? && parse(toks[st.sIndex]).Some?
        && Entry(r.value, locus).summedN == Entry(st, locus).summedN + parse(toks[st.nIndex]).value
        && Entry(r.value, locus).summedS == Entry(st, locus).summedS + parse(toks[st.sIndex]).value)
    && (!fires ==>
        Entry(r.value, locus).summedN == Entry(st, locus).summedN &&
        Entry(r.value, locus).summedS == Entry(st, locus).summedS)
  }

  lemma Chain2TreeLength(st: ScanState, locus: string, line: string, toks: seq<string>, parse: string -> Option<real>)
    requires toks != [] && Wf(st) && Rule2Of(st, line, toks) == TreeLengthLine
    ensures Chain2Spec(st, locus, line, toks, parse)
  {
    WithEntryFrame(st, locus, Entry(st, locus).(treeLength := Some(toks[|toks| - 1])));
  }

  lemma Chain2Unchanged(st: ScanState, locus: string, line: string, toks: seq<string>, parse: string -> Option<real>)
    requires toks != [] && Wf(st) && Rule2Of(st, line, toks) in {TreeText, BranchHeader, NoRule2}
    ensures Chain2Spec(st, locus, line, toks, parse)
  {
    var rule := Rule2Of(st, line, toks);
    var r := Chain2(st, locus, line, toks, parse);
    if rule == TreeText {
      assert r == Ok(st.(trees := st.trees[locus := RStrip(line)], treeNext := false));
    } else if rule == BranchHeader {
      assert r == HeaderLine(st, toks);
      assert r.Ok? ==> r.value.summary == st.summary && r.value.polyPos == st.polyPos && r.value.branchTab == st.branchTab;
    } else {
      assert r == Ok(st);
    }
  }

  lemma Chain2Row(st: ScanState, locus: string, line: string, toks: seq<string>, parse: string -> Option<real>)
    requires toks != [] && Wf(st) && Rule2Of(st, line, toks) == BranchRow
    ensures Chain2Spec(st, locus, line, toks, parse)
  {
    var e := Entry(st, locus);
    var vn := parse(toks[st.nIndex]);
    var vs := parse(toks[st.sIndex]);
    if vn.Some? && vs.Some? {
      WithEntryFrame(st, locus, e.(numCompare := e.numCompare + 1, summedN := e.summedN + vn.value,
                                   summedS := e.summedS + vs.value));
    }
  }

  lemma Chain2Facts(st: ScanState, locus: string, line: string, toks: seq<string>, parse: string -> Option<real>)
    requires toks != [] && Wf(st)
    ensures Chain2Spec(st, locus, line, toks, parse)
  {
    var rule := Rule2Of(st, line, toks);
    if rule == TreeLengthLine {
      Chain2TreeLength(st, locus, line, toks, parse);
    } else if rule == BranchRow {
      Chain2Row(st, locus, line, toks, parse);
    } else {
      Chain2Unchanged(st, locus, line, toks, parse);
    }
  }

  /** One step is the breakdown check, then chain one, then chain two. */
  lemma StepSplit(st: ScanState, locus: string, line: string, parse: string -> Option<real>)
    requires Wf(st) && Split(line) != []
    ensures var toks := Split(line);
            var r1 := Chain1(Breakdown(st, locus, toks), locus, line, toks);
            && (r1.Err? ==> StepLine(st, locus, line, parse) == Err(r1.error))
            && (r1.Ok? ==> Wf(r1.value) && StepLine(st, locus, line, parse) == Chain2(r1.value, locus, line, toks, parse))
  {
  }

  /** The breakdown check adds the offsets of the row it takes to the
      current locus, and to no other. */
  lemma BreakdownPolyOf(st: ScanState, locus: string, toks: seq<string>)
    requires toks != []
    ensures var b := Breakdown(st, locus, toks);
            && PolyOf(b, locus) == PolyOf(st, locus) + (if BreakdownFires(st, toks) then RowOffsets(toks) else {})
            && forall l :: l != locus ==> PolyOf(b, l) == PolyOf(st, l)
  {
  }

  lemma SamePolyOf(s: ScanState, t: ScanState)
    requires s.polyPos == t.polyPos
    ensures forall l :: PolyOf(s, l) == PolyOf(t, l)
  {
  }

  /** What a whole step leaves alone: the list of loci, the records and
      polymorphic sites of other loci, and the set of keys up to the current
      locus. */
  lemma StepFrame(st: ScanState, locus: string, line: string, parse: string -> Option<real>)
    requires Wf(st) && StepLine(st, locus, line, parse).Ok?
    ensures var s := StepLine(st, locus, line, parse).value;
            && s.loci == st.loci
            && (s.summary.Keys == st.summary.Keys || s.summary.Keys == st.summary.Keys + {locus})
            && (forall l :: l != locus ==> Entry(s, l) == Entry(st, l))
            && (forall l :: l != locus ==> PolyOf(s, l) == PolyOf(st, l))
  {
    var toks := Split(line);
    if toks != [] {
      StepSplit(st, locus, line, parse);
      var b := Breakdown(st, locus, toks);
      BreakdownPolyOf(st, locus, toks);
      Chain1Facts(b, locus, line, toks);
      var s1 := Chain1(b, locus, line, toks).value;
      assert Frame1(b, s1, locus, toks);
      Chain2Facts(s1, locus, line, toks, parse);
      var s2 := Chain2(s1, locus, line, toks, parse).value;
      assert Frame2(s1, s2, locus);
    }
  }

  // ------------------------------------------------------- kappa and omega

  function Param(l: Locus, name: string): Option<string>
    requires name == "kappa" || name == "omega"
  {
    if name == "kappa" then l.kappa else l.omega
  }

  function ParamRule(name: string): Rule1 {
    if name == "kappa" then KappaLine else OmegaLine
  }

  /** The kappa (omega) rule takes the line: a non-blank line whose first
      token is the parameter's name, reached by chain one. */
  predicate ParamFires(st: ScanState, line: string, name: string) {
    var toks := Split(line);
    toks != [] && toks[0] == name && !st.justPrintedSites && !st.justParsedCounts
  }

  lemma ParamRuleFires(st: ScanState, locus: string, line: string, name: string)
    requires Split(line) != [] && (name == "kappa" || name == "omega")
    ensures var toks := Split(line);
            Rule1Of(Breakdown(st, locus, toks), line, toks) == ParamRule(name) <==> ParamFires(st, line, name)
  {
    if StartsWith(line, SitePatternBanner) {
      BannerFirstToken(line);
    }
  }

  /** One line sets `kappa` (`omega`) of the current locus to its 4th token
      when the rule takes it and leaves it alone otherwise; the rule taking a
      line of fewer than four tokens stops the run. */
  lemma StepParam(st: ScanState, locus: string, line: string, parse: string -> Option<real>, name: string)
    requires Wf(st) && (name == "kappa" || name == "omega")
    ensures var r := StepLine(st, locus, line, parse);
            && (ParamFires(st, line, name) && |Split(line)| < 4 ==> r == Err(TooFewTokens(line)))
            && (r.Ok? && ParamFires(st, line, name) ==>
                |Split(line)| >= 4 && Param(Entry(r.value, locus), name) == Some(Split(line)[3]))
            && (r.Ok? && !ParamFires(st, line, name) ==>
                Param(Entry(r.value, locus), name) == Param(Entry(st, locus), name))
  {
    var toks := Split(line);
    if toks != [] {
      StepSplit(st, locus, line, parse);
      var b := Breakdown(st, locus, toks);
      ParamRuleFires(st, locus, line, name);
      Chain1Facts(b, locus, line, toks);
      var r1 := Chain1(b, locus, line, toks);
      if r1.Ok? {
        Chain2Facts(r1.value, locus, line, toks, parse);
      }
    }
  }

  /** Lines that do not start with the parameter's name leave it unchanged. */
  lemma {:induction false} ScanKeepsParam(st: ScanState, locus: string, lines: seq<string>,
                                          parse: string -> Option<real>, name: string)
    requires Wf(st) && (name == "kappa" || name == "omega")
    requires forall i :: 0 <= i < |lines| ==> Split(lines[i]) == [] || Split(lines[i])[0] != name
    ensures ScanLines(st, locus, lines, parse).Ok? ==>
            Param(Entry(ScanLines(st, locus, lines, parse).value, locus), name) == Param(Entry(st, locus), name)
  {
    if lines != [] {
      var init := lines[..|lines| - 1];
      ScanKeepsParam(st, locus, init, parse, name);
      if ScanLines(st, locus, init, parse).Ok? {
        StepParam(ScanLines(st, locus, init, parse).value, locus, lines[|lines| - 1], parse, name);
      }
    }
  }

  /** Last one wins: after a line the kappa (omega) rule takes, and no later
      line of the file starting with that name, the value is that line's 4th
      token. */
  lemma LastParamWins(st: ScanState, locus: string, pre: seq<string>, line: string, post: seq<string>,
                      parse: string -> Option<real>, name: string)
    requires Wf(st) && (name == "kappa" || name == "omega")
    requires ScanLines(st, locus, pre, parse).Ok?
    requires ParamFires(ScanLines(st, locus, pre, parse).value, line, name)
    requires forall i :: 0 <= i < |post| ==> Split(post[i]) == [] || Split(post[i])[0] != name
    requires ScanLines(st, locus, pre + [line] + post, parse).Ok?
    ensures |Split(line)| >= 4
    ensures Param(Entry(ScanLines(st, locus, pre + [line] + post, parse).value, locus), name) == Some(Split(line)[3])
  {
    var s0 := ScanLines(st, locus, pre, parse).value;
    ScanAppend(st, locus, pre + [line], post, parse);
    ScanAppend(st, locus, pre, [line], parse);
    assert ScanLines(s0, locus, [line], parse) == StepLine(s0, locus, line, parse) by {
      assert [line][..0] == [];
    }
    StepParam(s0, locus, line, parse, name);
    var s1 := StepLine(s0, locus, line, parse).value;
    ScanKeepsParam(s1, locus, post, parse, name);
  }

  // ------------------------------------------------- site pattern counts

  /** The banner line arms `justPrintedSites`. */
  lemma BannerLine(st: ScanState, locus: string, line: string, parse: string -> Option<real>)
    requires Wf(st) && StartsWith(line, SitePatternBanner)
    ensures StepLine(st, locus, line, parse).Ok? ==> StepLine(st, locus, line, parse).value.justPrintedSites
  {
    BannerFirstToken(line);
    var toks := Split(line);
    StepSplit(st, locus, line, parse);
    var r1 := Chain1(Breakdown(st, locus, toks), locus, line, toks);
    if r1.Ok? {
      Chain2Facts(r1.value, locus, line, toks, parse);
    }
  }

  /** The next non-blank line gives `num_seq` and `num_sites` from its first
      two tokens (a run-stopping fault when it has fewer) and arms
      `justParsedCounts`. */
  lemma CountsLine(st: ScanState, locus: string, line: string, parse: string -> Option<real>)
    requires Wf(st) && st.justPrintedSites && Split(line) != [] && !StartsWith(line, SitePatternBanner)
    ensures |Split(line)| < 2 ==> StepLine(st, locus, line, parse) == Err(TooFewTokens(line))
    ensures StepLine(st, locus, line, parse).Ok? ==>
            var s := StepLine(st, locus, line, parse).value;
            && |Split(line)| >= 2
            && Entry(s, locus).numSeq == Some(Split(line)[0])
            && Entry(s, locus).numSites == Some(Split(line)[1])
            && !s.justPrintedSites && s.justParsedCounts
  {
    var toks := Split(line);
    StepSplit(st, locus, line, parse);
    var b := Breakdown(st, locus, toks);
    assert Rule1Of(b, line, toks) == SiteCounts;
    var r1 := Chain1(b, locus, line, toks);
    if r1.Ok? {
      Chain2Facts(r1.value, locus, line, toks, parse);
    }
  }

  /** The line after that fixes the width of a breakdown row and arms the
      block. It adds no offsets of its own unless a block was already
      running. */
  lemma WidthLine(st: ScanState, locus: string, line: string, parse: string -> Option<real>)
    requires Wf(st) && !st.justPrintedSites && st.justParsedCounts
    requires Split(line) != [] && !StartsWith(line, SitePatternBanner)
    ensures StepLine(st, locus, line, parse).Ok? ==>
            var s := StepLine(st, locus, line, parse).value;
            && s.nextLineIsPolyBreakdown && s.polyBreakdownLength == Some(|Split(line)|)
            && !s.justParsedCounts
            && (!st.nextLineIsPolyBreakdown ==> PolyOf(s, locus) == PolyOf(st, locus))
  {
    var toks := Split(line);
    StepSplit(st, locus, line, parse);
    var b := Breakdown(st, locus, toks);
    assert Rule1Of(b, line, toks) == BreakdownWidth;
    var r1 := Chain1(b, locus, line, toks);
    Chain2Facts(r1.value, locus, line, toks, parse);
  }

  // ----------------------------------------------- polymorphic breakdown

  /** The breakdown check takes the line as a row. */
  predicate BreakdownFires(st: ScanState, toks: seq<string>) {
    st.nextLineIsPolyBreakdown && st.polyBreakdownLength.Some? && |toks| == st.polyBreakdownLength.value
  }

  /** Only the breakdown check changes `poly_pos`, and only for the current
      locus: by the offsets of the row it takes. */
  lemma StepPolyPos(st: ScanState, locus: string, line: string, parse: string -> Option<real>)
    requires Wf(st) && StepLine(st, locus, line, parse).Ok?
    ensures var s := StepLine(st, locus, line, parse).value;
            var toks := Split(line);
            && PolyOf(s, locus) == PolyOf(st, locus) + (if toks != [] && BreakdownFires(st, toks) then RowOffsets(toks) else {})
            && forall other :: other != locus ==> PolyOf(s, other) == PolyOf(st, other)
  {
    var toks := Split(line);
    if toks != [] {
      StepSplit(st, locus, line, parse);
      var b := Breakdown(st, locus, toks);
      BreakdownPolyOf(st, locus, toks);
      Chain1Facts(b, locus, line, toks);
      var s1 := Chain1(b, locus, line, toks).value;
      assert s1.polyPos == b.polyPos;
      Chain2Facts(s1, locus, line, toks, parse);
      var s2 := Chain2(s1, locus, line, toks, parse).value;
      assert s2.polyPos == s1.polyPos;
      SamePolyOf(s2, b);
    }
  }

  /** A line of another width ends the block and is then handled by every
      other rule exactly as if no block had been running: the check falls
      through. */
  lemma BreakdownEnds(st: ScanState, locus: string, line: string, parse: string -> Option<real>)
    requires Wf(st) && st.nextLineIsPolyBreakdown && Split(line) != []
    requires st.polyBreakdownLength != Some(|Split(line)|)
    ensures StepLine(st, locus, line, parse) == StepLine(st.(nextLineIsPolyBreakdown := false), locus, line, parse)
  {
    var toks := Split(line);
    StepSplit(st, locus, line, parse);
    StepSplit(st.(nextLineIsPolyBreakdown := false), locus, line, parse);
    assert Breakdown(st, locus, toks) == Breakdown(st.(nextLineIsPolyBreakdown := false), locus, toks);
  }

  /** The union of the offsets of a list of rows. */
  function UnionOffsets(rows: seq<string>): set<nat>
  {
    if rows == [] then {}
    else
      var last := Split(rows[|rows| - 1]);
      UnionOffsets(rows[..|rows| - 1]) + (if last == [] then {} else RowOffsets(last))
  }

  /** An offset is in the union iff one of the rows flags it. */
  lemma {:induction false} UnionOffsetsMember(rows: seq<string>, i: nat)
    ensures i in UnionOffsets(rows) <==>
            exists r :: r in rows && Split(r) != [] && i in RowOffsets(Split(r))
  {
    if rows != [] {
      var init := rows[..|rows| - 1];
      var last := rows[|rows| - 1];
      UnionOffsetsMember(init, i);
      assert rows == init + [last];
      if i in UnionOffsets(init) {
        var r :| r in init && Split(r) != [] && i in RowOffsets(Split(r));
        assert r in rows;
      }
      if exists r :: r in rows && Split(r) != [] && i in RowOffsets(Split(r)) {
        var r :| r in rows && Split(r) != [] && i in RowOffsets(Split(r));
        if r != last {
          assert r in init;
        }
      }
    }
  }

  lemma UnionOffsetsSubset(rows1: seq<string>, rows2: seq<string>)
    requires forall r :: r in rows1 ==> r in rows2
    ensures UnionOffsets(rows1) <= UnionOffsets(rows2)
  {
    forall i | i in UnionOffsets(rows1) ensures i in UnionOffsets(rows2) {
      UnionOffsetsMember(rows1, i);
      UnionOffsetsMember(rows2, i);
    }
  }

  /** The polymorphic sites depend only on which rows occur: not on their
      order, nor on how often a row is repeated. */
  lemma UnionOffsetsOrderFree(rows1: seq<string>, rows2: seq<string>)
    requires forall r :: r in rows1 <==> r in rows2
    ensures UnionOffsets(rows1) == UnionOffsets(rows2)
  {
    UnionOffsetsSubset(rows1, rows2);
    UnionOffsetsSubset(rows2, rows1);
  }

  /** One row of the armed width keeps the block armed at that width. */
  lemma StepInBlock(st: ScanState, locus: string, line: string, parse: string -> Option<real>, w: nat)
    requires Wf(st) && st.nextLineIsPolyBreakdown && st.polyBreakdownLength == Some(w) && |Split(line)| == w
    requires StepLine(st, locus, line, parse).Ok?
    ensures var s := StepLine(st, locus, line, parse).value;
            s.nextLineIsPolyBreakdown && s.polyBreakdownLength == Some(w)
  {
    var toks := Split(line);
    if toks != [] {
      StepSplit(st, locus, line, parse);
      var b := Breakdown(st, locus, toks);
      Chain1Facts(b, locus, line, toks);
      var r1 := Chain1(b, locus, line, toks);
      Chain2Facts(r1.value, locus, line, toks, parse);
    }
  }

  /** A run of rows of the armed width keeps the block armed and adds the
      union of their offsets to the locus's polymorphic sites. */
  lemma {:induction false} BlockAccumulates(st: ScanState, locus: string, rows: seq<string>,
                                            parse: string -> Option<real>, w: nat)
    requires Wf(st) && st.nextLineIsPolyBreakdown && st.polyBreakdownLength == Some(w)
    requires forall i :: 0 <= i < |rows| ==> |Split(rows[i])| == w
    ensures ScanLines(st, locus, rows, parse).Ok? ==>
            var s := ScanLines(st, locus, rows, parse).value;
            && s.nextLineIsPolyBreakdown && s.polyBreakdownLength == Some(w)
            && PolyOf(s, locus) == PolyOf(st, locus) + UnionOffsets(rows)
  {
    if rows != [] {
      var init := rows[..|rows| - 1];
      var last := rows[|rows| - 1];
      BlockAccumulates(st, locus, init, parse, w);
      if ScanLines(st, locus, rows, parse).Ok? {
        var s1 := ScanLines(st, locus, init, parse).value;
        StepPolyPos(s1, locus, last, parse);
        StepInBlock(s1, locus, last, parse, w);
      }
    }
  }

  // ------------------------------------------------------ tree length, tree

  /** A `tree length = ` line sets the tree length to its last token and
      arms the tree capture. */
  lemma TreeLengthLineSets(st: ScanState, locus: string, line: string, parse: string -> Option<real>)
    requires Wf(st) && StartsWith(line, TreeLengthPrefix)
    ensures StepLine(st, locus, line, parse).Ok?
    ensures var s := StepLine(st, locus, line, parse).value;
            && Entry(s, locus).treeLength == Some(Split(line)[|Split(line)| - 1])
            && s.treeNext
  {
    TreeLengthFirstToken(line);
    var toks := Split(line);
    StepSplit(st, locus, line, parse);
    var b := Breakdown(st, locus, toks);
    Chain1Facts(b, locus, line, toks);
    var r1 := Chain1(b, locus, line, toks);
    assert Rule2Of(r1.value, line, toks) == TreeLengthLine;
  }

  /** A `tree length for dN:` (`dS:`) line splits into `tree`, `length`,
      `for` and the tokens after them. */
  lemma TotalFirstToken(line: string)
    requires StartsWith(line, TotalDNPrefix) || StartsWith(line, TotalDSPrefix)
    ensures |Split(line)| >= 3
    ensures Split(line)[0] == "tree" && Split(line)[1] == "length" && Split(line)[2] == "for"
  {
    var rest := line[16..];
    assert line[..16] == "tree length for ";
    assert line == line[..16] + rest;
    assert "tree length for " + rest == "tree" + [' '] + ("length" + [' '] + ("for" + [' '] + rest));
    LowerNoSpace("tree");
    LowerNoSpace("length");
    LowerNoSpace("for");
    ThreeWords("tree", "length", "for", rest);
  }

  /** A `tree length for dN:` line, when no site-count line is pending, sets
      the locus's `total_dN` to its last token. It raises only if chain two
      also takes it as a branch row and that row's `N` or `S` is not a
      number. */
  lemma TotalDNLineSets(st: ScanState, locus: string, line: string, parse: string -> Option<real>)
    requires Wf(st) && !st.justPrintedSites && !st.justParsedCounts && StartsWith(line, TotalDNPrefix)
    ensures var r := StepLine(st, locus, line, parse);
            var toks := Split(line);
            && toks != []
            && (r.Ok? ==> Entry(r.value, locus).totalDN == Some(toks[|toks| - 1]))
            && (!RowFires(st, line) ==> r.Ok?)
  {
    TotalFirstToken(line);
    TotalNotOther(line);
    TotalStep(st, locus, line, parse);
    var toks := Split(line);
    assert Rule1Of(Breakdown(st, locus, toks), line, toks) == TotalDNLine;
  }

  /** The same for a `tree length for dS:` line and `total_dS`. */
  lemma TotalDSLineSets(st: ScanState, locus: string, line: string, parse: string -> Option<real>)
    requires Wf(st) && !st.justPrintedSites && !st.justParsedCounts && StartsWith(line, TotalDSPrefix)
    ensures var r := StepLine(st, locus, line, parse);
            var toks := Split(line);
            && toks != []
            && (r.Ok? ==> Entry(r.value, locus).totalDS == Some(toks[|toks| - 1]))
            && (!RowFires(st, line) ==> r.Ok?)
  {
    TotalFirstToken(line);
    TotalNotOther(line);
    TotalStep(st, locus, line, parse);
    var toks := Split(line);
    assert Rule1Of(Breakdown(st, locus, toks), line, toks) == TotalDSLine;
  }

  /** A `tree length for` line starts with neither the site-pattern banner
      nor `tree length = `, and a `dS:` line is no `dN:` line. */
  lemma TotalNotOther(line: string)
    requires StartsWith(line, TotalDNPrefix) || StartsWith(line, TotalDSPrefix)
    ensures !StartsWith(line, SitePatternBanner) && !StartsWith(line, TreeLengthPrefix)
    ensures StartsWith(line, TotalDSPrefix) ==> !StartsWith(line, TotalDNPrefix)
  {
    assert line[0] == 't';
    assert line[12] == 'f';
    if StartsWith(line, TotalDSPrefix) {
      assert line[17] == 'S';
    }
  }

  /** A line that chain one takes without raising and whose first token is
      `tree` but which is no tree-length line: chain two keeps chain one's
      record fields and raises only as a branch row. */
  lemma TotalStep(st: ScanState, locus: string, line: string, parse: string -> Option<real>)
    requires Wf(st) && !st.justPrintedSites && !st.justParsedCounts
    requires Split(line) != [] && Split(line)[0] == "tree" && !StartsWith(line, TreeLengthPrefix)
    ensures var toks := Split(line);
            var b := Breakdown(st, locus, toks);
            var r1 := Chain1(b, locus, line, toks);
            var r := StepLine(st, locus, line, parse);
            && r1.Ok?
            && Chain1Spec(b, locus, line, toks)
            && !b.justPrintedSites && !b.justParsedCounts
            && (r.Ok? ==> Entry(r.value, locus).totalDN == Entry(r1.value, locus).totalDN
                          && Entry(r.value, locus).totalDS == Entry(r1.value, locus).totalDS)
            && (!RowFires(st, line) ==> r.Ok?)
  {
    var toks := Split(line);
    StepSplit(st, locus, line, parse);
    var b := Breakdown(st, locus, toks);
    Chain1Facts(b, locus, line, toks);
    var r1 := Chain1(b, locus, line, toks);
    assert Rule1Of(b, line, toks) !in {SiteCounts, KappaLine, OmegaLine};
    Chain2Facts(r1.value, locus, line, toks, parse);
    if !RowFires(st, line) {
      assert Rule2Of(r1.value, line, toks) != BranchRow;
      assert Rule2Of(r1.value, line, toks) != BranchHeader;
    }
  }

  /** The next non-blank line, unless it is another tree-length line, is
      the tree text with its trailing blanks removed; it is neither a branch
      header nor a branch row. */
  lemma TreeTextLineCaptures(st: ScanState, locus: string, line: string, parse: string -> Option<real>)
    requires Wf(st) && st.treeNext && Split(line) != [] && !StartsWith(line, TreeLengthPrefix)
    ensures StepLine(st, locus, line, parse).Ok? ==>
            var s := StepLine(st, locus, line, parse).value;
            && locus in s.trees && s.trees[locus] == RStrip(line)
            && !s.treeNext
            && s.branchTab == st.branchTab
            && s.branchHeader == st.branchHeader
            && s.branchObserved == st.branchObserved
            && Entry(s, locus).numCompare == Entry(st, locus).numCompare
  {
    var toks := Split(line);
    StepSplit(st, locus, line, parse);
    var b := Breakdown(st, locus, toks);
    Chain1Facts(b, locus, line, toks);
    var r1 := Chain1(b, locus, line, toks);
    if r1.Ok? {
      assert Rule2Of(r1.value, line, toks) == TreeText;
    }
  }

  // ------------------------------------------------------ branch section

  /** A line whose first token is `branch`: it stops the run iff it lacks an
      `N` or an `S` column; otherwise the first `N` and `S` give the column
      indices, its width the row width, and it becomes the output header
      (prefixed with `locus`) only when no header was recorded before. */
  lemma BranchHeaderLineSets(st: ScanState, locus: string, line: string, parse: string -> Option<real>)
    requires Wf(st) && !st.treeNext
    requires Split(line) != [] && Split(line)[0] == "branch"
    ensures var toks := Split(line);
            var r := StepLine(st, locus, line, parse);
            && (r.Err? <==> "N" !in toks || "S" !in toks)
            && (r.Ok? ==>
                && r.value.branchObserved && r.value.branchNumCol == |toks|
                && r.value.nIndex < |toks| && toks[r.value.nIndex] == "N" && "N" !in toks[..r.value.nIndex]
                && r.value.sIndex < |toks| && toks[r.value.sIndex] == "S" && "S" !in toks[..r.value.sIndex]
                && r.value.branchHeader == if st.branchHeader.Some? then st.branchHeader else Some(["locus"] + toks))
  {
    var toks := Split(line);
    if StartsWith(line, TreeLengthPrefix) {
      TreeLengthFirstToken(line);
    }
    StepSplit(st, locus, line, parse);
    var b := Breakdown(st, locus, toks);
    Chain1Facts(b, locus, line, toks);
    var r1 := Chain1(b, locus, line, toks);
    if r1.Ok? {
      assert Rule2Of(r1.value, line, toks) == BranchHeader;
    } else {
      assert toks == [toks[0]];
    }
  }

  /** The branch-row rule takes the line: a header was seen in this file,
      the width matches, and neither tree rule nor the header rule has
      taken it. */
  predicate RowFires(st: ScanState, line: string) {
    var toks := Split(line);
    && toks != [] && !StartsWith(line, TreeLengthPrefix) && !st.treeNext && toks[0] != "branch"
    && st.branchObserved && |toks| == st.branchNumCol
  }

  /** One line appends exactly one row, tagged with the locus, and counts one
      more comparison iff the row rule takes it, adding the parsed `N` and
      `S` values to the sums; a value that does not parse stops the run. */
  lemma StepBranchRow(st: ScanState, locus: string, line: string, parse: string -> Option<real>)
    requires Wf(st) && StepLine(st, locus, line, parse).Ok?
    ensures var s := StepLine(st, locus, line, parse).value;
            var toks := Split(line);
            && s.branchTab == st.branchTab + (if RowFires(st, line) then [[locus] + toks] else [])
            && Entry(s, locus).numCompare == Entry(st, locus).numCompare + (if RowFires(st, line) then 1 else 0)
            && (RowFires(st, line) ==>
                && parse(toks[st.nIndex]).Some? && parse(toks[st.sIndex]).Some?
                && Entry(s, locus).summedN == Entry(st, locus).summedN + parse(toks[st.nIndex]).value
                && Entry(s, locus).summedS == Entry(st, locus).summedS + parse(toks[st.sIndex]).value)
            && (!RowFires(st, line) ==>
                Entry(s, locus).summedN == Entry(st, locus).summedN && Entry(s, locus).summedS == Entry(st, locus).summedS)
  {
    var toks := Split(line);
    if toks != [] {
      StepSplit(st, locus, line, parse);
      var b := Breakdown(st, locus, toks);
      Chain1Facts(b, locus, line, toks);
      var r1 := Chain1(b, locus, line, toks);
      Chain2Facts(r1.value, locus, line, toks, parse);
      assert (Rule2Of(r1.value, line, toks) == BranchRow) == RowFires(st, line);
    }
  }

  /** Over a file, the branch table only grows, every row it gains is tagged
      with the file's locus, and it gains exactly as many rows as the
      locus's comparison count grows. */
  lemma {:induction false} ScanCountsRows(st: ScanState, locus: string, lines: seq<string>,
                                          parse: string -> Option<real>)
    requires Wf(st) && ScanLines(st, locus, lines, parse).Ok?
    ensures var s := ScanLines(st, locus, lines, parse).value;
            && |st.branchTab| <= |s.branchTab| && s.branchTab[..|st.branchTab|] == st.branchTab
            && (forall k :: |st.branchTab| <= k < |s.branchTab| ==> s.branchTab[k] != [] && s.branchTab[k][0] == locus)
            && Entry(s, locus).numCompare == Entry(st, locus).numCompare + (|s.branchTab| - |st.branchTab|)
  {
    if lines != [] {
      var init := lines[..|lines| - 1];
      ScanCountsRows(st, locus, init, parse);
      var s1 := ScanLines(st, locus, init, parse).value;
      StepBranchRow(s1, locus, lines[|lines| - 1], parse);
    }
  }

  /** A file's own count: since a file starts its locus at zero, after the
      file the count is the number of rows the file appended. */
  lemma FileCountsRows(st: ScanState, f: CodemlFile, ext: string, parse: string -> Option<real>)
    requires Wf(st) && ScanFile(st, f, ext, parse).Ok?
    ensures var s := ScanFile(st, f, ext, parse).value;
            Entry(s, LocusId(f.name, ext)).numCompare == |s.branchTab| - |st.branchTab|
  {
    ScanCountsRows(BeginFile(st, LocusId(f.name, ext)), LocusId(f.name, ext), f.lines, parse);
  }

  lemma StepKeepsHeader(st: ScanState, locus: string, line: string, parse: string -> Option<real>)
    requires Wf(st) && st.branchHeader.Some? && StepLine(st, locus, line, parse).Ok?
    ensures StepLine(st, locus, line, parse).value.branchHeader == st.branchHeader
  {
    var toks := Split(line);
    if toks != [] {
      StepSplit(st, locus, line, parse);
      var b := Breakdown(st, locus, toks);
      Chain1Facts(b, locus, line, toks);
      var r1 := Chain1(b, locus, line, toks);
      match Rule2Of(r1.value, line, toks)
      case TreeLengthLine =>
      case TreeText =>
      case BranchHeader =>
      case BranchRow =>
      case NoRule2 =>
    }
  }

  /** Only the first header of the batch is kept: once recorded it never
      changes, across lines and across files. */
  lemma {:induction false} ScanKeepsHeader(st: ScanState, locus: string, lines: seq<string>,
                                           parse: string -> Option<real>)
    requires Wf(st) && st.branchHeader.Some? && ScanLines(st, locus, lines, parse).Ok?
    ensures ScanLines(st, locus, lines, parse).value.branchHeader == st.branchHeader
  {
    if lines != [] {
      var init := lines[..|lines| - 1];
      ScanKeepsHeader(st, locus, init, parse);
      StepKeepsHeader(ScanLines(st, locus, init, parse).value, locus, lines[|lines| - 1], parse);
    }
  }

  lemma {:induction false} FilesKeepHeader(st: ScanState, files: seq<CodemlFile>, ext: string,
                                           parse: string -> Option<real>)
    requires Wf(st) && st.branchHeader.Some? && ScanFiles(st, files, ext, parse).Ok?
    ensures ScanFiles(st, files, ext, parse).value.branchHeader == st.branchHeader
  {
    if files != [] {
      var init := files[..|files| - 1];
      FilesKeepHeader(st, init, ext, parse);
      var s1 := ScanFiles(st, init, ext, parse).value;
      var f := files[|files| - 1];
      ScanKeepsHeader(BeginFile(s1, LocusId(f.name, ext)), LocusId(f.name, ext), f.lines, parse);
    }
  }

  // ------------------------------------------------------ files and loci

  /** Entering a file clears `branchObserved` and the locus's counters and
      nothing else: the one-shot flags, the breakdown width and everything
      recorded for the locus before carry over from the previous file. */
  lemma BeginFileCarriesFlags(st: ScanState, locus: string)
    ensures var s := BeginFile(st, locus);
            && s.justPrintedSites == st.justPrintedSites && s.justParsedCounts == st.justParsedCounts
            && s.nextLineIsPolyBreakdown == st.nextLineIsPolyBreakdown && s.treeNext == st.treeNext
            && s.polyBreakdownLength == st.polyBreakdownLength && s.branchHeader == st.branchHeader
            && !s.branchObserved
            && Entry(s, locus) == Entry(st, locus).(numCompare := 0, summedN := 0.0, summedS := 0.0)
            && s.polyPos == st.polyPos && s.trees == st.trees && s.branchTab == st.branchTab
  {
  }

  /** `loci` lists the keys of `summary` once each. */
  predicate LociWf(st: ScanState) {
    && (forall i, j :: 0 <= i < j < |st.loci| ==> st.loci[i] != st.loci[j])
    && st.summary.Keys == set l | l in st.loci
  }

  lemma {:induction false} ScanKeepsLoci(st: ScanState, locus: string, lines: seq<string>,
                                         parse: string -> Option<real>)
    requires Wf(st) && LociWf(st) && locus in st.summary && ScanLines(st, locus, lines, parse).Ok?
    ensures var s := ScanLines(st, locus, lines, parse).value;
            s.loci == st.loci && s.summary.Keys == st.summary.Keys
  {
    if lines != [] {
      var init := lines[..|lines| - 1];
      ScanKeepsLoci(st, locus, init, parse);
      StepFrame(ScanLines(st, locus, init, parse).value, locus, lines[|lines| - 1], parse);
    }
  }

  lemma {:induction false} FilesKeepLociWf(st: ScanState, files: seq<CodemlFile>, ext: string,
                                           parse: string -> Option<real>)
    requires Wf(st) && LociWf(st) && ScanFiles(st, files, ext, parse).Ok?
    ensures LociWf(ScanFiles(st, files, ext, parse).value)
  {
    if files != [] {
      var init := files[..|files| - 1];
      FilesKeepLociWf(st, init, ext, parse);
      var s1 := ScanFiles(st, init, ext, parse).value;
      var f := files[|files| - 1];
      var locus := LocusId(f.name, ext);
      var b := BeginFile(s1, locus);
      assert LociWf(b);
      ScanKeepsLoci(b, locus, f.lines, parse);
    }
  }

  /** A locus is the file name with the extension removed, when the
      extension occurs in the name only as its suffix. */
  lemma LocusIdStripsExt(stem: string, ext: string)
    requires ext != []
    requires forall i :: 0 <= i < |stem| ==> !StartsWith((stem + ext)[i..], ext)
    ensures LocusId(stem + ext, ext) == stem
  {
    ReplaceStripsSuffix(stem, ext);
  }
}
