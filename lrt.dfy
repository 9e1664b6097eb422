/** `lrt_test` of 5_LRT_test_omega.py: the lnL value of each null and
    alternative CODEML file, the likelihood-ratio statistic per locus, the
    Bonferroni correction and the significance marker. The directory
    listing is a sequence of names and the files a map from path to
    lines; Python's `float()` is `parse` and `scipy.stats.chi2.sf` is `sf`. */
module Lrt {
  import opened Wrappers
  import opened Text

  /** Why `lrt_test` stops with an exception. */
  datatype LrtFault =
    | NoSuchFile(path: string)       // `open` of a path that does not exist
    | TooFewFields(line: string)     // IndexError on `tabs[4]`
    | BadNumber(field: string)       // ValueError of `float(tabs[4])`
    | MissingNull(gene: string)      // KeyError on `null2lnl[key]`

  // ------------------------------------------------------------ one line

  predicate IsBlank(c: char) {
    c == ' ' || c == '\t'
  }

  /** `re.sub("[\t ]+", "\t", s)`: every run of spaces and tabs becomes one
      tab. Written from the end: the result ends in a tab exactly when the
      input ends in a blank. */
  function CollapseBlanks(s: string): (r: string)
    ensures |r| <= |s|
    ensures ' ' !in r
    ensures r != [] <==> s != []
    ensures s != [] ==> (r[|r| - 1] == '\t' <==> IsBlank(s[|s| - 1]))
  {
    if s == [] then []
    else
      var rest := CollapseBlanks(s[..|s| - 1]);
      var c := s[|s| - 1];
      if !IsBlank(c) then rest + [c]
      else if rest != [] && rest[|rest| - 1] == '\t' then rest
      else rest + ['\t']
  }

  /** No two tabs in a row. */
  lemma {:induction false} CollapseNoDoubleTab(s: string)
    ensures forall i :: 0 <= i < |CollapseBlanks(s)| - 1 ==>
              !(CollapseBlanks(s)[i] == '\t' && CollapseBlanks(s)[i + 1] == '\t')
  {
    if s != [] {
      CollapseNoDoubleTab(s[..|s| - 1]);
    }
  }

  /** Collapsing twice is collapsing once. */
  lemma {:induction false} CollapseIdempotent(s: string)
    ensures CollapseBlanks(CollapseBlanks(s)) == CollapseBlanks(s)
  {
    if s != [] {
      var init := s[..|s| - 1];
      var c := s[|s| - 1];
      var rest := CollapseBlanks(init);
      CollapseIdempotent(init);
      var r := CollapseBlanks(s);
      if rest == [] {
        assert r == [if IsBlank(c) then '\t' else c];
        assert r[..0] == [];
      } else {
        assert r[..|r| - 1] == rest || r == rest;
        if r == rest {
        } else {
          assert r == rest + [r[|r| - 1]];
        }
      }
    }
  }

  /** A line that starts with a blank has an empty first field. */
  lemma LeadingBlankEmptyField(s: string)
    requires s != [] && IsBlank(s[0])
    ensures SplitOn(CollapseBlanks(s), '\t')[0] == []
  {
    CollapseStartsWithTab(s);
  }

  lemma {:induction false} CollapseStartsWithTab(s: string)
    requires s != [] && IsBlank(s[0])
    ensures CollapseBlanks(s) != [] && CollapseBlanks(s)[0] == '\t'
  {
    if |s| > 1 {
      assert s[..|s| - 1][0] == s[0];
      CollapseStartsWithTab(s[..|s| - 1]);
    }
  }

  /** The non-blank characters of `s`, in order. */
  function Unblank(s: string): string {
    if s == [] then []
    else Unblank(s[..|s| - 1]) + (if IsBlank(s[|s| - 1]) then [] else [s[|s| - 1]])
  }

  /** Collapsing keeps every non-blank character, in order. */
  lemma {:induction false} CollapseKeepsNonBlank(s: string)
    ensures Unblank(CollapseBlanks(s)) == Unblank(s)
  {
    if s != [] {
      var rest := CollapseBlanks(s[..|s| - 1]);
      var c := s[|s| - 1];
      CollapseKeepsNonBlank(s[..|s| - 1]);
      if !IsBlank(c) {
        assert (rest + [c])[..|rest|] == rest;
      } else if rest == [] || rest[|rest| - 1] != '\t' {
        assert (rest + ['\t'])[..|rest|] == rest;
      }
    }
  }

  predicate AllBlank(g: string) {
    forall i :: 0 <= i < |g| ==> IsBlank(g[i])
  }

  predicate NoBlank(w: string) {
    forall i :: 0 <= i < |w| ==> !IsBlank(w[i])
  }

  /** A word after anything is copied as it is. */
  lemma {:induction false} CollapseAppendWord(s: string, w: string)
    requires NoBlank(w)
    ensures CollapseBlanks(s + w) == CollapseBlanks(s) + w
    decreases |w|
  {
    if w == [] {
      assert s + w == s;
    } else {
      var init := w[..|w| - 1];
      assert (s + w)[..|s + w| - 1] == s + init;
      assert (s + w)[|s + w| - 1] == w[|w| - 1];
      CollapseAppendWord(s, init);
      assert init + [w[|w| - 1]] == w;
    }
  }

  /** A run of blanks after a non-blank character (or at the start) becomes
      exactly one tab. */
  lemma {:induction false} CollapseAppendGap(s: string, g: string)
    requires g != [] && AllBlank(g) && (s == [] || !IsBlank(s[|s| - 1]))
    ensures CollapseBlanks(s + g) == CollapseBlanks(s) + "\t"
    decreases |g|
  {
    var init := g[..|g| - 1];
    assert (s + g)[..|s + g| - 1] == s + init;
    assert (s + g)[|s + g| - 1] == g[|g| - 1];
    if init == [] {
      assert s + init == s;
    } else {
      CollapseAppendGap(s, init);
    }
  }

  /** A line made of the words `ws`, the blank run `gaps[k]` before word k. */
  function Spaced(ws: seq<string>, gaps: seq<string>): string
    requires |gaps| == |ws|
  {
    if ws == [] then []
    else Spaced(ws[..|ws| - 1], gaps[..|gaps| - 1]) + gaps[|gaps| - 1] + ws[|ws| - 1]
  }

  /** Non-empty words without blanks, separated by non-empty blank runs; the
      run before the first word may be empty. */
  predicate WordsAndGaps(ws: seq<string>, gaps: seq<string>) {
    && |gaps| == |ws|
    && (forall k :: 0 <= k < |ws| ==> ws[k] != [] && NoBlank(ws[k]))
    && (forall k :: 0 <= k < |gaps| ==> AllBlank(gaps[k]))
    && (forall k :: 0 < k < |gaps| ==> gaps[k] != [])
  }

  /** Such a line ends with the last character of its last word. */
  lemma SpacedLast(ws: seq<string>, gaps: seq<string>)
    requires |gaps| == |ws| && ws != [] && ws[|ws| - 1] != []
    ensures var line := Spaced(ws, gaps);
            line != [] && line[|line| - 1] == ws[|ws| - 1][|ws[|ws| - 1]| - 1]
  {
  }

  function Lead(gaps: seq<string>): string
    requires gaps != []
  {
    if gaps[0] == [] then [] else "\t"
  }

  /** Collapsing such a line joins its words with single tabs, after one
      leading tab when the line starts with blanks. */
  lemma {:induction false} CollapseSpaced(ws: seq<string>, gaps: seq<string>)
    requires WordsAndGaps(ws, gaps) && ws != []
    ensures CollapseBlanks(Spaced(ws, gaps)) == Lead(gaps) + JoinWith(ws, '\t')
    decreases |ws|
  {
    var n := |ws|;
    if n == 1 {
      CollapseSpacedOne(ws, gaps);
    } else {
      WordsAndGapsInit(ws, gaps);
      CollapseSpaced(ws[..n - 1], gaps[..n - 1]);
      CollapseSpacedStep(ws, gaps);
    }
  }

  lemma CollapseSpacedOne(ws: seq<string>, gaps: seq<string>)
    requires WordsAndGaps(ws, gaps) && |ws| == 1
    ensures CollapseBlanks(Spaced(ws, gaps)) == Lead(gaps) + JoinWith(ws, '\t')
  {
    assert NoBlank(ws[0]) && AllBlank(gaps[0]);
    assert Spaced(ws, gaps) == gaps[0] + ws[0];
    CollapseFirstWord(gaps[0], ws[0]);
  }

  lemma WordsAndGapsInit(ws: seq<string>, gaps: seq<string>)
    requires WordsAndGaps(ws, gaps) && |ws| >= 2
    ensures WordsAndGaps(ws[..|ws| - 1], gaps[..|gaps| - 1])
    ensures Lead(gaps[..|gaps| - 1]) == Lead(gaps)
  {
  }

  lemma CollapseSpacedStep(ws: seq<string>, gaps: seq<string>)
    requires WordsAndGaps(ws, gaps) && |ws| >= 2
    requires CollapseBlanks(Spaced(ws[..|ws| - 1], gaps[..|gaps| - 1])) == Lead(gaps) + JoinWith(ws[..|ws| - 1], '\t')
    ensures CollapseBlanks(Spaced(ws, gaps)) == Lead(gaps) + JoinWith(ws, '\t')
  {
    var n := |ws|;
    var g, w := gaps[n - 1], ws[n - 1];
    assert NoBlank(w) && AllBlank(g) && g != [];
    var wi, gi := ws[..n - 1], gaps[..n - 1];
    assert wi[n - 2] == ws[n - 2];
    var pre := Spaced(wi, gi);
    SpacedLast(wi, gi);
    assert !IsBlank(pre[|pre| - 1]) by { assert NoBlank(ws[n - 2]); }
    CollapseStep(pre, g, w, Lead(gaps), JoinWith(wi, '\t'));
    JoinWithLast(ws, '\t');
    assert Spaced(ws, gaps) == pre + g + w;
  }

  /** One more blank run and word after a line that ends in a word. */
  lemma CollapseStep(pre: string, g: string, w: string, lead: string, x: string)
    requires CollapseBlanks(pre) == lead + x
    requires pre != [] && !IsBlank(pre[|pre| - 1])
    requires g != [] && AllBlank(g) && NoBlank(w)
    ensures CollapseBlanks(pre + g + w) == lead + (x + "\t" + w)
  {
    CollapseAppendGap(pre, g);
    var c1 := CollapseBlanks(pre + g);
    assert c1 == lead + x + "\t";
    CollapseAppendWord(pre + g, w);
    var c2 := CollapseBlanks(pre + g + w);
    assert c2 == c1 + w;
    AppendAssoc(lead, x, "\t", w);
  }

  lemma AppendAssoc(a: string, b: string, c: string, d: string)
    ensures a + b + c + d == a + (b + c + d)
  {
  }

  /** One word after an optional blank run. */
  lemma CollapseFirstWord(g: string, w: string)
    requires AllBlank(g) && NoBlank(w)
    ensures CollapseBlanks(g + w) == (if g == [] then [] else "\t") + w
  {
    if g == [] {
      CollapseAppendWord([], w);
      assert [] + w == g + w;
    } else {
      CollapseAppendGap([], g);
      assert [] + g == g;
      CollapseAppendWord(g, w);
    }
  }

  /** ... so the tab split of the collapsed line is the words themselves,
      after one empty field when the line starts with blanks. */
  lemma CollapsedFields(ws: seq<string>, gaps: seq<string>)
    requires WordsAndGaps(ws, gaps) && ws != []
    ensures SplitOn(CollapseBlanks(Spaced(ws, gaps)), '\t') == if gaps[0] == [] then ws else [[]] + ws
  {
    CollapseSpaced(ws, gaps);
    forall k | 0 <= k < |ws|
      ensures '\t' !in ws[k]
    {
      assert NoBlank(ws[k]);
    }
    SplitOnJoinWith(ws, '\t');
    var j := JoinWith(ws, '\t');
    if gaps[0] == [] {
      assert Lead(gaps) + j == j;
    } else {
      assert ("\t" + j)[0] == '\t';
      assert ("\t" + j)[1..] == j;
    }
  }

  /** A line of words separated by blanks: nothing unless the words hold
      `lnL`; otherwise its fifth tab field, which is the fifth word, or the
      fourth when the line starts with blanks, read as a number. */
  lemma LnLOfSpaced(ws: seq<string>, gaps: seq<string>, parse: string -> Option<real>)
    requires WordsAndGaps(ws, gaps) && ws != [] && NoSpace(ws[|ws| - 1])
    ensures var l := Lead(gaps) + JoinWith(ws, '\t');
            var fields := if gaps[0] == [] then ws else [[]] + ws;
            LineLnL(Spaced(ws, gaps), parse) ==
              if !Contains(JoinWith(ws, '\t'), "lnL") then Ok(None)
              else if |fields| < 5 then Err(TooFewFields(l))
              else match parse(fields[4])
                case None => Err(BadNumber(fields[4]))
                case Some(v) => Ok(Some(v))
  {
    var line := Spaced(ws, gaps);
    SpacedRStrip(ws, gaps);
    CollapseSpaced(ws, gaps);
    CollapsedFields(ws, gaps);
    var j := JoinWith(ws, '\t');
    var l := Lead(gaps) + j;
    assert CollapseBlanks(RStrip(line)) == l;
    if gaps[0] == [] {
      assert l == j;
    } else {
      assert l[0] == '\t' && l[1..] == j;
      assert !StartsWith(l, "lnL");
      assert Contains(l, "lnL") == Contains(j, "lnL");
    }
  }

  lemma SpacedRStrip(ws: seq<string>, gaps: seq<string>)
    requires |gaps| == |ws| && ws != [] && ws[|ws| - 1] != [] && NoSpace(ws[|ws| - 1])
    ensures RStrip(Spaced(ws, gaps)) == Spaced(ws, gaps)
  {
    SpacedLast(ws, gaps);
  }

  /** The lnL value of one line (5_LRT_test_omega.py:24-30): none unless the
      collapsed line contains `lnL`; then field 4 of its tab split. */
  function LineLnL(line: string, parse: string -> Option<real>): Result<Option<real>, LrtFault> {
    var l := CollapseBlanks(RStrip(line));
    if !Contains(l, "lnL") then Ok(None)
    else
      var tabs := SplitOn(l, '\t');
      if |tabs| < 5 then Err(TooFewFields(l))
      else match parse(tabs[4])
        case None => Err(BadNumber(tabs[4]))
        case Some(v) => Ok(Some(v))
  }

  /** The value the loop over a file leaves behind: the last lnL line wins. */
  function FileLnL(lines: seq<string>, parse: string -> Option<real>): Result<Option<real>, LrtFault> {
    if lines == [] then Ok(None)
    else
      match FileLnL(lines[..|lines| - 1], parse)
      case Err(f) => Err(f)
      case Ok(prev) =>
        match LineLnL(lines[|lines| - 1], parse)
        case Err(f) => Err(f)
        case Ok(None) => Ok(prev)
        case Ok(Some(v)) => Ok(Some(v))
  }

  /** Lines without `lnL` leave the value alone. */
  lemma {:induction false} FileLnLIgnores(pre: seq<string>, post: seq<string>, parse: string -> Option<real>)
    requires forall i :: 0 <= i < |post| ==> LineLnL(post[i], parse) == Ok(None)
    ensures FileLnL(pre + post, parse) == FileLnL(pre, parse)
  {
    if post == [] {
      assert pre + post == pre;
    } else {
      var init := post[..|post| - 1];
      assert (pre + post)[..|pre + post| - 1] == pre + init;
      assert (pre + post)[|pre + post| - 1] == post[|post| - 1];
      FileLnLIgnores(pre, init, parse);
    }
  }

  /** The last lnL line wins: after it, lines without an lnL value change
      nothing. */
  lemma LastLnLWins(pre: seq<string>, line: string, post: seq<string>, parse: string -> Option<real>, v: real)
    requires FileLnL(pre, parse).Ok? && LineLnL(line, parse) == Ok(Some(v))
    requires forall i :: 0 <= i < |post| ==> LineLnL(post[i], parse) == Ok(None)
    ensures FileLnL(pre + [line] + post, parse) == Ok(Some(v))
  {
    FileLnLIgnores(pre + [line], post, parse);
    assert (pre + [line])[..|pre|] == pre;
  }

  /** A file without any `lnL` line has no value. */
  lemma {:induction false} NoLnLLine(lines: seq<string>, parse: string -> Option<real>)
    requires forall i :: 0 <= i < |lines| ==> !Contains(CollapseBlanks(RStrip(lines[i])), "lnL")
    ensures FileLnL(lines, parse) == Ok(None)
  {
    if lines != [] {
      NoLnLLine(lines[..|lines| - 1], parse);
    }
  }

  // ------------------------------------------------------------ the files

  /** `os.path.join(dir, name)`. */
  function JoinPath(dir: string, name: string): string {
    if StartsWith(name, "/") then name
    else if dir == [] || EndsWith(dir, "/") then dir + name
    else dir + "/" + name
  }

  /** The joined path ends with the file name and, unless the name is
      absolute, starts with the directory. */
  lemma JoinPathParts(dir: string, name: string)
    ensures EndsWith(JoinPath(dir, name), name)
    ensures !StartsWith(name, "/") ==> StartsWith(JoinPath(dir, name), dir)
    ensures StartsWith(name, "/") ==> JoinPath(dir, name) == name
  {
    var p := JoinPath(dir, name);
    if !StartsWith(name, "/") {
      if dir == [] || EndsWith(dir, "/") {
        assert p[|p| - |name|..] == name;
        assert p[..|dir|] == dir;
      } else {
        assert p == dir + ("/" + name);
        assert p[|p| - |name|..] == name;
        assert p[..|dir|] == dir;
      }
    }
  }

  /** `null2lnl`, and `alternative2lnl` with its insertion order. */
  datatype Tables = Tables(nullLnl: map<string, real>, altOrder: seq<string>, alt: map<string, real>)

  const NoTables: Tables := Tables(map[], [], map[])

  /** `altOrder` lists the keys of `alt` once each. */
  predicate TablesWf(t: Tables) {
    && (forall i, j :: 0 <= i < j < |t.altOrder| ==> t.altOrder[i] != t.altOrder[j])
    && t.alt.Keys == set g | g in t.altOrder
  }

  function SetNull(t: Tables, gene: string, v: Option<real>): Tables {
    if v.None? then t else t.(nullLnl := t.nullLnl[gene := v.value])
  }

  /** A dict assignment: a new key goes to the end, an old one keeps its
      place. */
  function SetAlt(t: Tables, gene: string, v: Option<real>): (r: Tables)
    ensures TablesWf(t) ==> TablesWf(r)
  {
    if v.None? then t
    else t.(altOrder := if gene in t.alt then t.altOrder else t.altOrder + [gene],
            alt := t.alt[gene := v.value])
  }

  /** The locus of an alternative file, `file.replace(alt_ext, "")`. */
  function Gene(name: string, altExt: string): string {
    Replace(name, altExt, [])
  }

  /** Its null partner, `file_path.replace(alt_ext, null_ext)`: the
      replacement is made in the whole path, directory included. */
  function NullPath(dir: string, name: string, nullExt: string, altExt: string): string {
    Replace(JoinPath(dir, name), altExt, nullExt)
  }

  /** One listed name ending in `alt_ext` (5_LRT_test_omega.py:17-47): the
      null file is read first, then the alternative file. */
  function ReadPair(t: Tables, fs: map<string, seq<string>>, dir: string, name: string,
                    nullExt: string, altExt: string, parse: string -> Option<real>): Result<Tables, LrtFault>
  {
    var path := JoinPath(dir, name);
    var nullPath := NullPath(dir, name, nullExt, altExt);
    var gene := Gene(name, altExt);
    if nullPath !in fs then Err(NoSuchFile(nullPath))
    else
      match FileLnL(fs[nullPath], parse)
      case Err(f) => Err(f)
      case Ok(nv) =>
        if path !in fs then Err(NoSuchFile(path))
        else
          match FileLnL(fs[path], parse)
          case Err(f) => Err(f)
          case Ok(av) => Ok(SetAlt(SetNull(t, gene, nv), gene, av))
  }

  /** The loop over the listing (5_LRT_test_omega.py:15-47). */
  function ReadAll(fs: map<string, seq<string>>, dir: string, names: seq<string>,
                   nullExt: string, altExt: string, parse: string -> Option<real>): Result<Tables, LrtFault>
  {
    if names == [] then Ok(NoTables)
    else
      match ReadAll(fs, dir, names[..|names| - 1], nullExt, altExt, parse)
      case Err(f) => Err(f)
      case Ok(t) =>
        var name := names[|names| - 1];
        if EndsWith(name, altExt) then ReadPair(t, fs, dir, name, nullExt, altExt, parse) else Ok(t)
  }

  /** The alternative table lists each locus once, in the order first seen. */
  lemma {:induction false} ReadAllWf(fs: map<string, seq<string>>, dir: string, names: seq<string>,
                                     nullExt: string, altExt: string, parse: string -> Option<real>)
    requires ReadAll(fs, dir, names, nullExt, altExt, parse).Ok?
    ensures TablesWf(ReadAll(fs, dir, names, nullExt, altExt, parse).value)
  {
    if names != [] {
      ReadAllWf(fs, dir, names[..|names| - 1], nullExt, altExt, parse);
    }
  }

  /** A listed alternative file whose null partner is absent stops the run. */
  lemma MissingNullFile(t: Tables, fs: map<string, seq<string>>, dir: string, name: string,
                        nullExt: string, altExt: string, parse: string -> Option<real>)
    requires NullPath(dir, name, nullExt, altExt) !in fs
    ensures ReadPair(t, fs, dir, name, nullExt, altExt, parse) == Err(NoSuchFile(NullPath(dir, name, nullExt, altExt)))
  {
  }

  /** Reading a pair records the alternative value under the locus of the
      file, after whatever came before, and the null value when the null
      file has one. */
  lemma ReadPairRecords(t: Tables, fs: map<string, seq<string>>, dir: string, name: string,
                        nullExt: string, altExt: string, parse: string -> Option<real>)
    requires ReadPair(t, fs, dir, name, nullExt, altExt, parse).Ok?
    ensures var r := ReadPair(t, fs, dir, name, nullExt, altExt, parse).value;
            var gene := Gene(name, altExt);
            && (FileLnL(fs[JoinPath(dir, name)], parse).value.Some? ==>
                  gene in r.alt && r.alt[gene] == FileLnL(fs[JoinPath(dir, name)], parse).value.value)
            && (FileLnL(fs[NullPath(dir, name, nullExt, altExt)], parse).value.Some? ==>
                  gene in r.nullLnl && r.nullLnl[gene] == FileLnL(fs[NullPath(dir, name, nullExt, altExt)], parse).value.value)
            && r.altOrder[..|t.altOrder|] == t.altOrder
            && (forall g :: g != gene ==> (g in r.alt <==> g in t.alt) && (g in t.alt ==> r.alt[g] == t.alt[g]))
  {
  }

  // ------------------------------------------------------------ the test

  /** `-2*(lnl_null-lnl_alt)`. */
  function LR(lnlNull: real, lnlAlt: real): (r: real)
    ensures r >= 0.0 <==> lnlAlt >= lnlNull
  {
    -2.0 * (lnlNull - lnlAlt)
  }

  lemma LRExample()
    ensures LR(-100.0, -90.0) == 20.0
  {
  }

  /** One tested locus. */
  datatype Test = Test(gene: string, lr: real, p: real)

  /** The test loop (5_LRT_test_omega.py:53-60) over the alternative keys in
      insertion order. */
  function Tests(t: Tables, keys: seq<string>, df: int, sf: (real, int) -> real): Result<seq<Test>, LrtFault>
    requires forall g :: g in keys ==> g in t.alt
  {
    if keys == [] then Ok([])
    else
      match Tests(t, keys[..|keys| - 1], df, sf)
      case Err(f) => Err(f)
      case Ok(ts) =>
        var g := keys[|keys| - 1];
        if g !in t.nullLnl then Err(MissingNull(g))
        else
          var lr := LR(t.nullLnl[g], t.alt[g]);
          Ok(ts + [Test(g, lr, sf(lr, df))])
  }

  /** The Bonferroni correction of `multipletests`: `min(1, p*n)`. */
  function Bonferroni(p: real, n: nat): (r: real)
    ensures r <= 1.0
    ensures r == p * (n as real) || r == 1.0
    ensures p * (n as real) <= 1.0 ==> r == p * (n as real)
  {
    if p * (n as real) > 1.0 then 1.0 else p * (n as real)
  }

  /** A p-value in [0, 1] is never lowered and never pushed past 1. */
  lemma BonferroniBounds(p: real, n: nat)
    requires 0.0 <= p <= 1.0 && n >= 1
    ensures p <= Bonferroni(p, n) <= 1.0
  {
    assert p * (n as real) >= p * 1.0;
  }

  const Significant: string := "*"
  const NotSignificant: string := "NS"

  function Marker(corrected: real, alpha: real): (m: string)
    ensures m == Significant <==> corrected < alpha
    ensures m == Significant || m == NotSignificant
  {
    if corrected < alpha then Significant else NotSignificant
  }

  /** One output line: locus, LR statistic, raw and corrected p-value,
      marker. */
  datatype Row = Row(gene: string, lr: real, p: real, corrected: real, marker: string)

  function RowsOf(ts: seq<Test>, n: nat, alpha: real): (rows: seq<Row>)
    ensures |rows| == |ts|
  {
    if ts == [] then []
    else
      var t := ts[|ts| - 1];
      var x := Bonferroni(t.p, n);
      RowsOf(ts[..|ts| - 1], n, alpha) + [Row(t.gene, t.lr, t.p, x, Marker(x, alpha))]
  }

  /** `lrt_test` as a function of the listing and the file contents. */
  function LrtTest(fs: map<string, seq<string>>, dir: string, names: seq<string>, nullExt: string, altExt: string,
                   df: int, alpha: real, parse: string -> Option<real>, sf: (real, int) -> real): Result<seq<Row>, LrtFault>
  {
    match ReadAll(fs, dir, names, nullExt, altExt, parse)
    case Err(f) => Err(f)
    case Ok(t) =>
      ReadAllWf(fs, dir, names, nullExt, altExt, parse);
      match Tests(t, t.altOrder, df, sf)
      case Err(f) => Err(f)
      case Ok(ts) => Ok(RowsOf(ts, |ts|, alpha))
  }

  /** The tests follow the keys one to one: same locus, the LR statistic of
      that locus's two values and its p-value; a key without a null value
      stops the loop. */
  lemma {:induction false} TestsAligned(t: Tables, keys: seq<string>, df: int, sf: (real, int) -> real)
    requires forall g :: g in keys ==> g in t.alt
    ensures Tests(t, keys, df, sf).Err? <==> exists g :: g in keys && g !in t.nullLnl
    ensures Tests(t, keys, df, sf).Ok? ==>
            var ts := Tests(t, keys, df, sf).value;
            && |ts| == |keys|
            && forall i :: 0 <= i < |ts| ==>
                 && ts[i].gene == keys[i] && keys[i] in t.nullLnl
                 && ts[i].lr == LR(t.nullLnl[keys[i]], t.alt[keys[i]])
                 && ts[i].p == sf(ts[i].lr, df)
  {
    if keys != [] {
      var init := keys[..|keys| - 1];
      var g := keys[|keys| - 1];
      assert keys == init + [g];
      TestsAligned(t, init, df, sf);
      if Tests(t, init, df, sf).Err? {
        var w :| w in init && w !in t.nullLnl;
        assert w in keys;
      } else if g in t.nullLnl {
        assert forall w :: w in keys ==> w in init || w == g;
      }
    }
  }

  lemma {:induction false} RowsOfAligned(ts: seq<Test>, n: nat, alpha: real)
    ensures forall i :: 0 <= i < |ts| ==>
              var r := RowsOf(ts, n, alpha)[i];
              && r.gene == ts[i].gene && r.lr == ts[i].lr && r.p == ts[i].p
              && r.corrected == Bonferroni(ts[i].p, n)
              && r.marker == Marker(r.corrected, alpha)
  {
    if ts != [] {
      RowsOfAligned(ts[..|ts| - 1], n, alpha);
    }
  }

  /** The output rows are index-aligned with the alternative loci in the
      order first seen: one row per locus, with its LR statistic, its
      p-value `sf(LR, df)`, the Bonferroni-corrected value over all the
      rows, and `*` exactly when that is below alpha. */
  lemma LrtRows(fs: map<string, seq<string>>, dir: string, names: seq<string>, nullExt: string, altExt: string,
                df: int, alpha: real, parse: string -> Option<real>, sf: (real, int) -> real)
    requires LrtTest(fs, dir, names, nullExt, altExt, df, alpha, parse, sf).Ok?
    ensures var t := ReadAll(fs, dir, names, nullExt, altExt, parse).value;
            var rows := LrtTest(fs, dir, names, nullExt, altExt, df, alpha, parse, sf).value;
            && |rows| == |t.altOrder|
            && forall i :: 0 <= i < |rows| ==>
                 var g := t.altOrder[i];
                 && rows[i].gene == g && g in t.nullLnl && g in t.alt
                 && rows[i].lr == LR(t.nullLnl[g], t.alt[g])
                 && rows[i].p == sf(rows[i].lr, df)
                 && rows[i].corrected == Bonferroni(rows[i].p, |rows|)
                 && rows[i].marker == Marker(rows[i].corrected, alpha)
  {
    var t := ReadAll(fs, dir, names, nullExt, altExt, parse).value;
    ReadAllWf(fs, dir, names, nullExt, altExt, parse);
    TestsAligned(t, t.altOrder, df, sf);
    var ts := Tests(t, t.altOrder, df, sf).value;
    RowsOfAligned(ts, |ts|, alpha);
  }

  /** A locus of the alternative table with no null value stops the run. */
  lemma MissingNullValue(fs: map<string, seq<string>>, dir: string, names: seq<string>, nullExt: string, altExt: string,
                         df: int, alpha: real, parse: string -> Option<real>, sf: (real, int) -> real, g: string)
    requires ReadAll(fs, dir, names, nullExt, altExt, parse).Ok?
    requires var t := ReadAll(fs, dir, names, nullExt, altExt, parse).value; g in t.alt && g !in t.nullLnl
    ensures LrtTest(fs, dir, names, nullExt, altExt, df, alpha, parse, sf).Err?
  {
    var t := ReadAll(fs, dir, names, nullExt, altExt, parse).value;
    ReadAllWf(fs, dir, names, nullExt, altExt, parse);
    assert g in t.altOrder;
    TestsAligned(t, t.altOrder, df, sf);
  }

  // ------------------------------------------------------------ alpha

  /** Python's `int()` of a float: truncation toward zero. */
  function PyInt(x: real): int {
    if x >= 0.0 then x.Floor else -((-x).Floor)
  }

  /** `int()` drops the fraction: the result lies between zero and `x`,
      less than one away from `x`. */
  lemma PyIntTruncates(x: real)
    ensures 0.0 <= x ==> 0.0 <= PyInt(x) as real <= x < PyInt(x) as real + 1.0
    ensures x < 0.0 ==> PyInt(x) as real - 1.0 < x <= PyInt(x) as real <= 0.0
  {
  }

  /** The default of `--alpha` is `int(0.05)`, made a float by
      `float(args.alpha)` (5_LRT_test_omega.py:85, 93). */
  const DefaultAlpha: real := PyInt(0.05) as real

  lemma DefaultAlphaIsZero()
    ensures DefaultAlpha == 0.0
  {
  }

  /** Under the default alpha no locus is ever flagged, whatever the files
      say, as long as the survival function gives a probability. */
  lemma DefaultAlphaFlagsNothing(fs: map<string, seq<string>>, dir: string, names: seq<string>, nullExt: string,
                                 altExt: string, df: int, parse: string -> Option<real>, sf: (real, int) -> real)
    requires forall x: real, d: int :: 0.0 <= sf(x, d) <= 1.0
    requires LrtTest(fs, dir, names, nullExt, altExt, df, DefaultAlpha, parse, sf).Ok?
    ensures forall r :: r in LrtTest(fs, dir, names, nullExt, altExt, df, DefaultAlpha, parse, sf).value ==>
              r.marker == NotSignificant
  {
    var rows := LrtTest(fs, dir, names, nullExt, altExt, df, DefaultAlpha, parse, sf).value;
    CorrectedBounds(fs, dir, names, nullExt, altExt, df, DefaultAlpha, parse, sf);
    LrtRows(fs, dir, names, nullExt, altExt, df, DefaultAlpha, parse, sf);
    DefaultAlphaIsZero();
    forall r | r in rows ensures r.marker == NotSignificant {
      var i :| 0 <= i < |rows| && rows[i] == r;
    }
  }

  /** Every corrected p-value lies between the raw one and 1. */
  lemma CorrectedBounds(fs: map<string, seq<string>>, dir: string, names: seq<string>, nullExt: string, altExt: string,
                        df: int, alpha: real, parse: string -> Option<real>, sf: (real, int) -> real)
    requires forall x: real, d: int :: 0.0 <= sf(x, d) <= 1.0
    requires LrtTest(fs, dir, names, nullExt, altExt, df, alpha, parse, sf).Ok?
    ensures forall r :: r in LrtTest(fs, dir, names, nullExt, altExt, df, alpha, parse, sf).value ==>
              r.p <= r.corrected <= 1.0
  {
    LrtRows(fs, dir, names, nullExt, altExt, df, alpha, parse, sf);
    var rows := LrtTest(fs, dir, names, nullExt, altExt, df, alpha, parse, sf).value;
    forall r | r in rows ensures r.p <= r.corrected <= 1.0 {
      var i :| 0 <= i < |rows| && rows[i] == r;
      BonferroniBounds(r.p, |rows|);
    }
  }

  /** Four loci with raw p-values 0.01, 0.02, 0.5 and 0.8 are corrected to
      0.04, 0.08, 1 and 1; at alpha 0.05 only the first is flagged. */
  lemma BonferroniFourLoci()
    ensures var ts := [Test("a", 1.0, 0.01), Test("b", 1.0, 0.02), Test("c", 1.0, 0.5), Test("d", 1.0, 0.8)];
            var rows := RowsOf(ts, 4, 0.05);
            && [rows[0].corrected, rows[1].corrected, rows[2].corrected, rows[3].corrected] == [0.04, 0.08, 1.0, 1.0]
            && [rows[0].marker, rows[1].marker, rows[2].marker, rows[3].marker] == [Significant, NotSignificant, NotSignificant, NotSignificant]
  {
    var ts := [Test("a", 1.0, 0.01), Test("b", 1.0, 0.02), Test("c", 1.0, 0.5), Test("d", 1.0, 0.8)];
    RowsOfAligned(ts, 4, 0.05);
  }

  // ------------------------------------------------------------ the loops

  lemma {:induction false} FileLnLErrPrefix(lines: seq<string>, k: nat, parse: string -> Option<real>)
    requires k <= |lines| && FileLnL(lines[..k], parse).Err?
    ensures FileLnL(lines, parse) == FileLnL(lines[..k], parse)
  {
    if k < |lines| {
      assert lines[..|lines| - 1][..k] == lines[..k];
      FileLnLErrPrefix(lines[..|lines| - 1], k, parse);
    } else {
      assert lines[..k] == lines;
    }
  }

  lemma {:induction false} ReadAllErrPrefix(fs: map<string, seq<string>>, dir: string, names: seq<string>, k: nat,
                                            nullExt: string, altExt: string, parse: string -> Option<real>)
    requires k <= |names| && ReadAll(fs, dir, names[..k], nullExt, altExt, parse).Err?
    ensures ReadAll(fs, dir, names, nullExt, altExt, parse) == ReadAll(fs, dir, names[..k], nullExt, altExt, parse)
  {
    if k < |names| {
      assert names[..|names| - 1][..k] == names[..k];
      ReadAllErrPrefix(fs, dir, names[..|names| - 1], k, nullExt, altExt, parse);
    } else {
      assert names[..k] == names;
    }
  }

  lemma {:induction false} TestsErrPrefix(t: Tables, keys: seq<string>, k: nat, df: int, sf: (real, int) -> real)
    requires forall g :: g in keys ==> g in t.alt
    requires k <= |keys| && Tests(t, keys[..k], df, sf).Err?
    ensures Tests(t, keys, df, sf) == Tests(t, keys[..k], df, sf)
  {
    if k < |keys| {
      assert keys[..|keys| - 1][..k] == keys[..k];
      TestsErrPrefix(t, keys[..|keys| - 1], k, df, sf);
    } else {
      assert keys[..k] == keys;
    }
  }

  lemma TestsNext(t: Tables, keys: seq<string>, i: nat, df: int, sf: (real, int) -> real)
    requires forall g :: g in keys ==> g in t.alt
    requires i < |keys| && Tests(t, keys[..i], df, sf).Ok? && keys[i] in t.nullLnl
    ensures var lr := LR(t.nullLnl[keys[i]], t.alt[keys[i]]);
            Tests(t, keys[..i + 1], df, sf) == Ok(Tests(t, keys[..i], df, sf).value + [Test(keys[i], lr, sf(lr, df))])
  {
    assert keys[..i + 1][..i] == keys[..i];
  }

  lemma TestsStop(t: Tables, keys: seq<string>, i: nat, df: int, sf: (real, int) -> real)
    requires forall g :: g in keys ==> g in t.alt
    requires i < |keys| && Tests(t, keys[..i], df, sf).Ok? && keys[i] !in t.nullLnl
    ensures Tests(t, keys, df, sf) == Err(MissingNull(keys[i]))
  {
    assert keys[..i + 1][..i] == keys[..i];
    TestsErrPrefix(t, keys, i + 1, df, sf);
  }

  /** One more line of a file. */
  lemma FileLnLNext(lines: seq<string>, i: nat, parse: string -> Option<real>)
    requires i < |lines| && FileLnL(lines[..i], parse).Ok?
    ensures FileLnL(lines[..i + 1], parse) ==
            match LineLnL(lines[i], parse)
            case Err(f) => Err(f)
            case Ok(None) => FileLnL(lines[..i], parse)
            case Ok(Some(v)) => Ok(Some(v))
  {
    assert lines[..i + 1][..i] == lines[..i];
  }

  /** One more name of the listing. */
  lemma ReadAllNext(fs: map<string, seq<string>>, dir: string, names: seq<string>, i: nat,
                    nullExt: string, altExt: string, parse: string -> Option<real>)
    requires i < |names| && ReadAll(fs, dir, names[..i], nullExt, altExt, parse).Ok?
    ensures var t := ReadAll(fs, dir, names[..i], nullExt, altExt, parse).value;
            ReadAll(fs, dir, names[..i + 1], nullExt, altExt, parse) ==
              if EndsWith(names[i], altExt) then ReadPair(t, fs, dir, names[i], nullExt, altExt, parse) else Ok(t)
  {
    assert names[..i + 1][..i] == names[..i];
  }

  /** The loop over the lines of one file (5_LRT_test_omega.py:24-30 and
      37-43). */
  method ReadLnL(lines: seq<string>, parse: string -> Option<real>) returns (r: Result<Option<real>, LrtFault>)
    ensures r == FileLnL(lines, parse)
  {
    var value: Option<real> := None;
    var i := 0;
    while i < |lines|
      invariant 0 <= i <= |lines|
      invariant FileLnL(lines[..i], parse) == Ok(value)
    {
      FileLnLNext(lines, i, parse);
      var line := CollapseBlanks(RStrip(lines[i]));
      if Contains(line, "lnL") {
        var tabs := SplitOn(line, '\t');
        if |tabs| < 5 {
          FileLnLErrPrefix(lines, i + 1, parse);
          return Err(TooFewFields(line));
        }
        var x := parse(tabs[4]);
        if x.None? {
          FileLnLErrPrefix(lines, i + 1, parse);
          return Err(BadNumber(tabs[4]));
        }
        value := x;
      }
      i := i + 1;
    }
    assert lines[..i] == lines;
    return Ok(value);
  }

  /** One pair of files (5_LRT_test_omega.py:17-47): the null file is read
      into `null2lnl`, then the alternative file into `alternative2lnl`. */
  method ReadPairFiles(null2lnl: map<string, real>, altOrder: seq<string>, alternative2lnl: map<string, real>,
                       fs: map<string, seq<string>>, dir: string, name: string,
                       nullExt: string, altExt: string, parse: string -> Option<real>) returns (r: Result<Tables, LrtFault>)
    ensures r == ReadPair(Tables(null2lnl, altOrder, alternative2lnl), fs, dir, name, nullExt, altExt, parse)
  {
    ghost var prev := Tables(null2lnl, altOrder, alternative2lnl);
    var null2lnl', altOrder', alternative2lnl' := null2lnl, altOrder, alternative2lnl;
    var path := JoinPath(dir, name);
    var nullPath := NullPath(dir, name, nullExt, altExt);
    var gene := Gene(name, altExt);
    if nullPath !in fs {
      return Err(NoSuchFile(nullPath));
    }
    var nv := ReadLnL(fs[nullPath], parse);
    if nv.Err? {
      return Err(nv.error);
    }
    if nv.value.Some? {
      null2lnl' := null2lnl'[gene := nv.value.value];
    }
    ghost var mid := Tables(null2lnl', altOrder', alternative2lnl');
    assert mid == SetNull(prev, gene, nv.value);
    if path !in fs {
      return Err(NoSuchFile(path));
    }
    var av := ReadLnL(fs[path], parse);
    if av.Err? {
      return Err(av.error);
    }
    if av.value.Some? {
      if gene !in alternative2lnl' {
        altOrder' := altOrder' + [gene];
      }
      alternative2lnl' := alternative2lnl'[gene := av.value.value];
    }
    assert Tables(null2lnl', altOrder', alternative2lnl') == SetAlt(mid, gene, av.value);
    ReadPairOk(prev, fs, dir, name, nullExt, altExt, parse);
    return Ok(Tables(null2lnl', altOrder', alternative2lnl'));
  }

  /** The loop over the listing (5_LRT_test_omega.py:15-47), filling
      `null2lnl` and `alternative2lnl`. */
  method ReadTables(fs: map<string, seq<string>>, dir: string, names: seq<string>,
                    nullExt: string, altExt: string, parse: string -> Option<real>) returns (r: Result<Tables, LrtFault>)
    ensures r == ReadAll(fs, dir, names, nullExt, altExt, parse)
  {
    var null2lnl: map<string, real> := map[];
    var altOrder: seq<string> := [];
    var alternative2lnl: map<string, real> := map[];
    var i := 0;
    while i < |names|
      invariant 0 <= i <= |names|
      invariant ReadAll(fs, dir, names[..i], nullExt, altExt, parse) == Ok(Tables(null2lnl, altOrder, alternative2lnl))
    {
      ReadAllNext(fs, dir, names, i, nullExt, altExt, parse);
      var name := names[i];
      if EndsWith(name, altExt) {
        var pair := ReadPairFiles(null2lnl, altOrder, alternative2lnl, fs, dir, name, nullExt, altExt, parse);
        if pair.Err? {
          ReadAllErrPrefix(fs, dir, names, i + 1, nullExt, altExt, parse);
          return Err(pair.error);
        }
        null2lnl, altOrder, alternative2lnl := pair.value.nullLnl, pair.value.altOrder, pair.value.alt;
      }
      i := i + 1;
    }
    assert names[..i] == names;
    return Ok(Tables(null2lnl, altOrder, alternative2lnl));
  }

  /** Both files of a pair read without a fault. */
  lemma ReadPairOk(t: Tables, fs: map<string, seq<string>>, dir: string, name: string,
                   nullExt: string, altExt: string, parse: string -> Option<real>)
    requires NullPath(dir, name, nullExt, altExt) in fs && JoinPath(dir, name) in fs
    requires FileLnL(fs[NullPath(dir, name, nullExt, altExt)], parse).Ok?
    requires FileLnL(fs[JoinPath(dir, name)], parse).Ok?
    ensures var gene := Gene(name, altExt);
            ReadPair(t, fs, dir, name, nullExt, altExt, parse) ==
              Ok(SetAlt(SetNull(t, gene, FileLnL(fs[NullPath(dir, name, nullExt, altExt)], parse).value), gene,
                        FileLnL(fs[JoinPath(dir, name)], parse).value))
  {
  }

  /** The three parallel lists of the test loop as one sequence of tests. */
  function Zip(genes: seq<string>, lrs: seq<real>, ps: seq<real>): seq<Test>
    requires |genes| == |lrs| == |ps|
  {
    seq(|genes|, k requires 0 <= k < |genes| => Test(genes[k], lrs[k], ps[k]))
  }

  /** `multipletests(ps, method="bonferroni")[1]`: every corrected value is
      at most 1, and a p-value in [0, 1] is never lowered. */
  function CorrectAll(ps: seq<real>): (xs: seq<real>)
    ensures |xs| == |ps|
    ensures forall k :: 0 <= k < |ps| ==> xs[k] <= 1.0
    ensures forall k :: 0 <= k < |ps| && 0.0 <= ps[k] <= 1.0 ==> ps[k] <= xs[k]
  {
    assert forall k :: 0 <= k < |ps| && 0.0 <= ps[k] <= 1.0 ==> ps[k] <= Bonferroni(ps[k], |ps|) by {
      forall k | 0 <= k < |ps| && 0.0 <= ps[k] <= 1.0 {
        BonferroniBounds(ps[k], |ps|);
      }
    }
    seq(|ps|, k requires 0 <= k < |ps| => Bonferroni(ps[k], |ps|))
  }

  /** The test loop (5_LRT_test_omega.py:53-60): for each alternative key
      in insertion order, its LR statistic and p-value appended to three
      parallel lists; `fault` is the KeyError that stops it. */
  method TestLoop(t: Tables, df: int, sf: (real, int) -> real)
    returns (genes: seq<string>, lrs: seq<real>, ps: seq<real>, fault: Option<LrtFault>)
    requires TablesWf(t)
    ensures |genes| == |lrs| == |ps|
    ensures fault.None? ==> Tests(t, t.altOrder, df, sf) == Ok(Zip(genes, lrs, ps))
    ensures fault.Some? ==> Tests(t, t.altOrder, df, sf) == Err(fault.value)
  {
    var keys := t.altOrder;
    genes, lrs, ps := [], [], [];
    assert Zip(genes, lrs, ps) == [];
    var i := 0;
    while i < |keys|
      invariant 0 <= i <= |keys|
      invariant |genes| == |lrs| == |ps|
      invariant Tests(t, keys[..i], df, sf) == Ok(Zip(genes, lrs, ps))
    {
      var key := keys[i];
      if key !in t.nullLnl {
        TestsStop(t, keys, i, df, sf);
        return genes, lrs, ps, Some(MissingNull(key));
      }
      var lr := LR(t.nullLnl[key], t.alt[key]);
      var p := sf(lr, df);
      TestsNext(t, keys, i, df, sf);
      assert Zip(genes + [key], lrs + [lr], ps + [p]) == Zip(genes, lrs, ps) + [Test(key, lr, p)];
      genes, lrs, ps := genes + [key], lrs + [lr], ps + [p];
      i := i + 1;
    }
    assert keys[..i] == keys;
    fault := None;
  }

  /** The correction and the output loop (5_LRT_test_omega.py:63-76): one
      row per index of the parallel lists. */
  method OutputRows(genes: seq<string>, lrs: seq<real>, ps: seq<real>, alpha: real) returns (rows: seq<Row>)
    requires |genes| == |lrs| == |ps|
    ensures rows == RowsOf(Zip(genes, lrs, ps), |ps|, alpha)
  {
    var ts := Zip(genes, lrs, ps);
    var corrected := CorrectAll(ps);
    rows := [];
    var k := 0;
    while k < |ps|
      invariant 0 <= k <= |ps|
      invariant rows == RowsOf(ts[..k], |ps|, alpha)
    {
      assert ts[..k + 1][..k] == ts[..k];
      var marker := if corrected[k] < alpha then Significant else NotSignificant;
      rows := rows + [Row(genes[k], lrs[k], ps[k], corrected[k], marker)];
      k := k + 1;
    }
    assert ts[..k] == ts;
  }

  /** `lrt_test`: the loops over the files, the test loop and the output
      (5_LRT_test_omega.py:13-76). */
  method RunLrtTest(fs: map<string, seq<string>>, dir: string, names: seq<string>, nullExt: string, altExt: string,
                    df: int, alpha: real, parse: string -> Option<real>, sf: (real, int) -> real)
    returns (r: Result<seq<Row>, LrtFault>)
    ensures r == LrtTest(fs, dir, names, nullExt, altExt, df, alpha, parse, sf)
  {
    var tables := ReadTables(fs, dir, names, nullExt, altExt, parse);
    if tables.Err? {
      return Err(tables.error);
    }
    ReadAllWf(fs, dir, names, nullExt, altExt, parse);
    var genes, lrs, ps, fault := TestLoop(tables.value, df, sf);
    if fault.Some? {
      return Err(fault.value);
    }
    var rows := OutputRows(genes, lrs, ps, alpha);
    return Ok(rows);
  }
}
