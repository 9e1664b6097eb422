# dN/dS pipeline core: a Dafny model

This project models three steps of a pipeline that measures selection on the
core genes of a set of bacterial genomes.

1. `run_program` builds a nucleotide core-genome alignment.
   - It reads the protein files of the core genes (one `.faa` per gene, record
     ids `genome&protein`). From them it builds the gene → proteins index, the
     protein → genome map and the list of genomes in first-seen order.
   - It looks every protein up among the nucleotide records of the genomes
     (`.genes.fna`) and writes one nucleotide file per core gene. Each record is
     relabelled with its genome.
   - After alignment it concatenates, genome by genome, the aligned sequences of
     every `.aln` file. A genome missing from an alignment gets that
     alignment's width of gaps.
2. `lrt_test` carries out the likelihood-ratio test.
   - It pairs each codeml output of the alternative model with the output of
     the null model for the same gene, and takes the last `lnL` value of each.
   - It computes `LR = -2 (lnL_null - lnL_alt)` and the chi-square p-value,
     corrects the p-values with Bonferroni, and marks a gene `*` when the
     corrected value is below alpha, `NS` otherwise.
3. `parse_dnds` summarises a directory of codeml outputs.
   - A line scanner with a few flags collects, per locus: the site counts,
     the polymorphic columns of the site-pattern breakdown, kappa, omega, the
     tree lengths, the tree, and the pairwise branch table (`N` and `S`
     summed).
   - It then reports the loci that lack kappa, omega or any compared branch,
     and writes one summary row per complete locus, in sorted order.

What each Python construct becomes in the model:

- **Exceptions.** A Python exception that stops a script is an `Err` of a
  `Result`. Each source of exception is a fault constructor: an `IndexError`,
  a `KeyError`, a `ValueError` from `float()` or `list.index`, a missing
  file, the `sys.exit(1)` when no file matches, the `TypeError` when no
  branch header was seen, the `NameError` on `seq_len`, and the
  `UnboundLocalError` on `output` in `run_program`'s final message.
- **Folds.** Every loop is a fold, defined from the end of its sequence. The
  scripts' loops are methods. Each method is proved equal to its fold
  (`ensures r == Fold(...)`), and the properties are lemmas about the folds.
- **Scanner state.** The variables of `parse_dnds` are the fields of the
  class `CodemlBatch.Scanner`. Its methods update them one rule at a time,
  and each method is proved to agree with the pure step function
  `CodemlScan.StepLine`.
- **Dictionaries.** A Python dict is a `map` plus, where its iteration order
  matters, a sequence of its keys in insertion order.
- **File system.** The directories are inputs: lists of named files with
  their records or lines, in `os.listdir` order.
- **External functions.** `float()` is the parameter `parse` and
  `scipy.stats.chi2.sf` is the parameter `sf`.

Files:

- `wrappers.dfy`: `Option` and `Result`.
- `text.dfy`: the string operations the scripts use, with their laws.
  - `str.split()` and `str.rstrip()`.
  - `str.split(c)` and its inverse `join`.
  - `str.replace` of every occurrence.
  - `str.startswith` and `str.endswith`, `in`, and `list.index`.
  - `"".join`, `'-' * n`.
  - Python's string order, and `sorted` as an insertion sort.
- `codeml_scan.dfy`: the line rules of `parse_dnds` as pure functions over the
  scanner state, and the file loop.
- `codeml_props.dfy`: what those rules guarantee, rule by rule and over whole
  files.
- `codeml_report.dfy`: the completeness check, the summary rows and the
  report.
- `codeml_batch.dfy`: the imperative `parse_dnds`: the `Scanner` class and the
  loops over lines, files, loci and summary keys.
- `lrt.dfy`: `lrt_test`.
- `concat.dfy`: the in-memory parts of `run_program`.

## Model

| member | source | states |
|---|---|---|
| Text.TokenLen | 6_parse_raw_codeml_files.py:50 | the first token of a line stops at the first whitespace character and holds none |
| Text.Split | 6_parse_raw_codeml_files.py:50 | `str.split()` yields non-empty tokens without whitespace and splits a lone word to itself; `SplitWord`, `SplitWordSpace` and `SplitJoin` state which tokens, in which order |
| Text.TokenLenOfWord | 6_parse_raw_codeml_files.py:50 | a line that starts with a word and a whitespace character has a first token exactly as long as that word |
| Text.SplitWord | 6_parse_raw_codeml_files.py:50 | a line that starts with a word and a whitespace character splits into that word followed by the split of the rest |
| Text.SplitWordSpace | 6_parse_raw_codeml_files.py:50 | a word, a whitespace character and a rest split into the word followed by the split of the rest |
| Text.SplitJoin | 6_parse_raw_codeml_files.py:50 | words without whitespace joined by single spaces split back into exactly those words, in order |
| Text.RStrip | 6_parse_raw_codeml_files.py:50 | `rstrip()` keeps a prefix, removes only trailing whitespace and leaves none |
| Text.ReplaceAbsent | 6_parse_raw_codeml_files.py:41 | `replace` of a pattern that does not occur returns the string unchanged |
| Text.ReplaceStripsSuffix | 6_parse_raw_codeml_files.py:41 | `replace(ext, '')` on a name whose only occurrence of `ext` is the suffix gives the stem |
| Text.Replace | 6_parse_raw_codeml_files.py:41 | `str.replace` of every occurrence, left to right; characterised by `ReplaceAbsent` and `ReplaceStripsSuffix` |
| Text.StartsWith | 6_parse_raw_codeml_files.py:63 | `str.startswith`: the string begins with the prefix |
| Text.EndsWith | 6_parse_raw_codeml_files.py:12 | `str.endswith`: the string ends with the suffix |
| Text.Contains | 5_LRT_test_omega.py:28 | `p in s` for strings: `p` occurs at some position of `s` |
| Text.ContainsPrefix | 5_LRT_test_omega.py:28 | a substring of a prefix is a substring of the whole string |
| Text.ConcatLength | 2_generate_concatenated_alignment_nucleotide.py:86 | `"".join` of n pieces of width w has length n·w |
| Text.Concat | 2_generate_concatenated_alignment_nucleotide.py:86 | `"".join` of the pieces in order; its length is stated by `ConcatLength` |
| Text.JoinWith | 5_LRT_test_omega.py:26 | `sep.join` with a one-character separator; `JoinSplitOn` and `SplitOnJoinWith` make it the inverse of `split(sep)` |
| Text.SplitOn | 5_LRT_test_omega.py:26 | `split(sep)` yields at least one field and no field contains `sep` |
| Text.JoinSplitOn | 5_LRT_test_omega.py:26 | joining the fields of `split(sep)` with `sep` gives back the string |
| Text.SplitOnNoSep | 2_generate_concatenated_alignment_nucleotide.py:18 | a string without `sep` splits to itself |
| Text.SplitOnFirstSep | 2_generate_concatenated_alignment_nucleotide.py:18 | splitting at the first `sep` gives the part before it followed by the split of the rest |
| Text.SplitOnJoinWith | 5_LRT_test_omega.py:26 | fields without `sep` joined by `sep` split back into exactly those fields |
| Text.JoinWithLast | 5_LRT_test_omega.py:26 | joining two or more fields is joining all but the last, then `sep`, then the last |
| Text.SplitOnCount | 2_generate_concatenated_alignment_nucleotide.py:18-19 | `split(sep)` has one field more than the string has separators |
| Text.Repeat | 2_generate_concatenated_alignment_nucleotide.py:80 | `c * n` has length n and every character is `c` |
| Text.IndexOf | 6_parse_raw_codeml_files.py:92-93 | `list.index` fails iff the value is absent; otherwise it gives the first position holding it |
| Text.IndexOfUnique | 6_parse_raw_codeml_files.py:92-93 | a position holding x with no earlier x is the index of x |
| Text.IndexOfAppend | 2_generate_concatenated_alignment_nucleotide.py:23-24 | appending keeps the index of a value already present and gives a new value the last position |
| Text.LtIrreflexive | 6_parse_raw_codeml_files.py:121 | Python's string order is irreflexive |
| Text.Lt | 6_parse_raw_codeml_files.py:121 | Python's string order, code point by code point with a proper prefix first; a strict total order by `LtIrreflexive`, `LtTransitive`, `LtTotal` and `LtAsymmetric` |
| Text.LtTransitive | 6_parse_raw_codeml_files.py:121 | Python's string order is transitive |
| Text.LtTotal | 6_parse_raw_codeml_files.py:121 | Python's string order relates any two different strings |
| Text.LtAsymmetric | 6_parse_raw_codeml_files.py:121 | Python's string order is asymmetric |
| Text.NotLtIsLe | 6_parse_raw_codeml_files.py:121 | not less-than in one direction means less-or-equal in the other |
| Text.LeTransitive | 6_parse_raw_codeml_files.py:121 | less-or-equal is transitive |
| Text.Insert | 6_parse_raw_codeml_files.py:121 | one insertion step of `sorted` adds exactly the inserted element |
| Text.InsertSorted | 6_parse_raw_codeml_files.py:121 | inserting into a sorted list keeps it sorted |
| Text.SortStrings | 6_parse_raw_codeml_files.py:121 | `sorted` is a permutation of its input |
| Text.SortStringsSorted | 6_parse_raw_codeml_files.py:121 | the result of `sorted` is in ascending order |
| Text.SortedDistinctIsStrict | 6_parse_raw_codeml_files.py:121 | a sorted list of distinct keys is strictly ascending |
| CodemlScan.Breakdown | 6_parse_raw_codeml_files.py:55-61 | the breakdown check changes only `poly_pos` and the breakdown flag, and can only clear the flag |
| CodemlScan.Initial | 6_parse_raw_codeml_files.py:23-34 | the state before the first file: every flag cleared, no header, no breakdown width, empty tables; `Scanner.constructor` starts there and `ScanAll` runs the file loop from it |
| CodemlScan.Entry | 6_parse_raw_codeml_files.py:43-45 | a read of the `defaultdict` `summary_tab[locus]`: the locus's record, or an empty one; `BeginFileCarriesFlags` and `WithEntryFrame` use it |
| CodemlScan.WithEntry | 6_parse_raw_codeml_files.py:43-45 | a write of `summary_tab[locus]`; `WithEntryFrame` states that it changes that locus only and creates it if absent |
| CodemlScan.PolyOf | 6_parse_raw_codeml_files.py:59 | a read of the `defaultdict` `poly_pos[locus]`: its set, or the empty set; `BreakdownPolyOf` and `StepPolyPos` state how it grows |
| CodemlScan.RowOffsets | 6_parse_raw_codeml_files.py:57-58 | the positions of `''.join(tokens[1:])` not holding a `.`; characterised by `UnionOffsetsMember` |
| CodemlScan.Rule1Of | 6_parse_raw_codeml_files.py:63-81 | the branch of the first `if`/`elif` chain that takes a line, in source order; `ParamRuleFires` states when the kappa and omega branches fire |
| CodemlScan.Chain1 | 6_parse_raw_codeml_files.py:63-81 | the first rule chain keeps the branch columns in range of the header |
| CodemlScan.Rule2Of | 6_parse_raw_codeml_files.py:82-96 | the branch of the second chain that takes a line, in source order; `StepBranchRow` states when the row branch fires |
| CodemlScan.HeaderLine | 6_parse_raw_codeml_files.py:88-95 | a branch header that is accepted leaves `N_index` and `S_index` inside the header |
| CodemlScan.Chain2 | 6_parse_raw_codeml_files.py:82-100 | the second rule chain keeps the branch columns in range of the header |
| CodemlScan.StepLine | 6_parse_raw_codeml_files.py:50-100 | one line keeps the branch columns in range |
| CodemlScan.ScanLines | 6_parse_raw_codeml_files.py:49-100 | a whole file keeps the branch columns in range |
| CodemlScan.Matching | 6_parse_raw_codeml_files.py:12 | the filtered listing holds exactly the listed files that end in `ext`; `MatchingAppend` states that it keeps their listing order |
| CodemlScan.MatchingAppend | 6_parse_raw_codeml_files.py:12 | filtering a concatenated listing is filtering each part, in listing order |
| CodemlScan.LocusId | 6_parse_raw_codeml_files.py:41 | `f.replace(ext, '')`; `LocusIdStripsExt` gives the stem of a name that carries `ext` only as its suffix |
| CodemlScan.BeginFile | 6_parse_raw_codeml_files.py:38-45 | entering a file; `BeginFileCarriesFlags` states what it resets and what it carries over |
| CodemlScan.ScanFile | 6_parse_raw_codeml_files.py:36-100 | one file keeps the branch columns in range |
| CodemlScan.ScanFiles | 6_parse_raw_codeml_files.py:36-100 | the file loop keeps the branch columns in range |
| CodemlProps.ScanAppend | 6_parse_raw_codeml_files.py:49-53 | scanning `a + b` is scanning `a`, then `b` from where `a` stopped, and a fault in `a` is the result |
| CodemlProps.ScanLinesErrPrefix | 6_parse_raw_codeml_files.py:49-100 | an exception on a line ends the file: later lines do not change the outcome |
| CodemlProps.ScanLinesNext | 6_parse_raw_codeml_files.py:49-100 | scanning one more line is one more `StepLine` |
| CodemlProps.ScanFilesErrPrefix | 6_parse_raw_codeml_files.py:36-100 | an exception in a file ends the run: later files do not change the outcome |
| CodemlProps.ScanFilesNext | 6_parse_raw_codeml_files.py:36-100 | one more file is one more `ScanFile` |
| CodemlProps.NonBlank | 6_parse_raw_codeml_files.py:52-53 | the lines that survive the blank-line skip all have a token |
| CodemlProps.BlankLineSkipped | 6_parse_raw_codeml_files.py:52-53 | a line without tokens leaves the whole state unchanged |
| CodemlProps.BlankLinesIrrelevant | 6_parse_raw_codeml_files.py:52-53 | a file scans exactly as its non-blank lines do, so every "next line" flag means the next non-blank line |
| CodemlProps.TreeLengthFirstToken | 6_parse_raw_codeml_files.py:78-82 | a `tree length = ` line splits into `tree`, `length`, `=` and more, so it never fires the kappa, omega or branch rules |
| CodemlProps.BannerFirstToken | 6_parse_raw_codeml_files.py:63 | the site-pattern banner has first token `Printing` |
| CodemlProps.WithEntryFrame | 6_parse_raw_codeml_files.py:43-45 | writing `summary_tab[locus]` changes that locus's record only and creates it if absent |
| CodemlProps.Chain1Unchanged | 6_parse_raw_codeml_files.py:63-73 | the banner and width rules, and a line no rule takes, change only chain one's own flags, leave `num_seq`, `num_sites`, kappa, omega, `total_dN` and `total_dS` as they were, and raise nothing |
| CodemlProps.Chain1Counts | 6_parse_raw_codeml_files.py:65-69 | the counts line sets `num_seq` to its first token and `num_sites` to its second, leaving every other record field; fewer than two tokens raises `IndexError` |
| CodemlProps.Chain1Kappa | 6_parse_raw_codeml_files.py:74-75 | a `kappa` line sets kappa to its fourth token; fewer than four tokens raises `IndexError` |
| CodemlProps.Chain1Omega | 6_parse_raw_codeml_files.py:76-77 | an `omega` line sets omega to its fourth token; fewer than four tokens raises `IndexError` |
| CodemlProps.Chain1TotalDN | 6_parse_raw_codeml_files.py:78-79 | the `tree length for dN:` rule sets `total_dN` to the line's last token, leaves every other record field, and raises nothing |
| CodemlProps.Chain1TotalDS | 6_parse_raw_codeml_files.py:80-81 | the `tree length for dS:` rule sets `total_dS` to the line's last token, leaves every other record field, and raises nothing |
| CodemlProps.Chain1Facts | 6_parse_raw_codeml_files.py:63-81 | chain one, whatever rule fires: what it may change, when it raises, and the value it gives `num_seq`, `num_sites`, kappa, omega, `total_dN` and `total_dS` |
| CodemlProps.Chain2TreeLength | 6_parse_raw_codeml_files.py:82-84 | the tree-length rule changes only chain two's fields and appends no branch row |
| CodemlProps.Chain2Unchanged | 6_parse_raw_codeml_files.py:85-95 | the tree, header and no-rule cases add no branch row and leave the counters alone |
| CodemlProps.Chain2Row | 6_parse_raw_codeml_files.py:96-100 | a branch row is appended tagged with the locus, counts one comparison and adds its parsed N and S |
| CodemlProps.Chain2Facts | 6_parse_raw_codeml_files.py:82-100 | chain two, whatever rule fires: its frame, the branch rows it adds, and the sums it updates |
| CodemlProps.StepSplit | 6_parse_raw_codeml_files.py:55-100 | a non-blank line runs the breakdown check, then chain one, then chain two; chain one's exception ends it |
| CodemlProps.BreakdownPolyOf | 6_parse_raw_codeml_files.py:55-59 | the breakdown check adds the row's non-`.` offsets to this locus's polymorphic set exactly when it takes the row |
| CodemlProps.SamePolyOf | 6_parse_raw_codeml_files.py:59 | states with the same `poly_pos` read the same sets |
| CodemlProps.StepFrame | 6_parse_raw_codeml_files.py:50-100 | a line changes only the current locus's record and polymorphic set, and keeps the locus order |
| CodemlProps.ParamRuleFires | 6_parse_raw_codeml_files.py:63-77 | the kappa (omega) rule fires iff no earlier rule of the chain takes the line and its first token is that name |
| CodemlProps.StepParam | 6_parse_raw_codeml_files.py:74-77 | a line the kappa (omega) rule takes sets it to the fourth token or raises; any other line leaves it |
| CodemlProps.ScanKeepsParam | 6_parse_raw_codeml_files.py:74-77 | lines that do not start with the parameter's name leave it unchanged |
| CodemlProps.LastParamWins | 6_parse_raw_codeml_files.py:74-77 | the last kappa (omega) line of a file decides the value recorded for its locus |
| CodemlProps.BannerLine | 6_parse_raw_codeml_files.py:63-64 | the site-pattern banner arms `just_printed_sites` |
| CodemlProps.CountsLine | 6_parse_raw_codeml_files.py:65-69 | the line after the banner sets `num_seq` and `num_sites` from its first two tokens, or raises if it has fewer |
| CodemlProps.WidthLine | 6_parse_raw_codeml_files.py:70-73 | the line after the counts fixes the breakdown width and arms the breakdown without flagging any site |
| CodemlProps.StepPolyPos | 6_parse_raw_codeml_files.py:55-61 | only the breakdown check changes `poly_pos`, only for the current locus, and only by the row's offsets |
| CodemlProps.BreakdownEnds | 6_parse_raw_codeml_files.py:60-61 | a line of another width ends the breakdown and is handled as if it had never been armed |
| CodemlProps.UnionOffsetsMember | 6_parse_raw_codeml_files.py:57-59 | an offset is polymorphic iff one of the rows has a non-`.` character there |
| CodemlProps.UnionOffsetsSubset | 6_parse_raw_codeml_files.py:59 | more rows never flag fewer sites |
| CodemlProps.UnionOffsetsOrderFree | 6_parse_raw_codeml_files.py:59 | the polymorphic set depends only on which rows occur, not on their order or repetition |
| CodemlProps.StepInBlock | 6_parse_raw_codeml_files.py:55-59 | a row of the armed width keeps the breakdown armed at that width |
| CodemlProps.BlockAccumulates | 6_parse_raw_codeml_files.py:55-59 | a run of rows of the armed width adds the union of their offsets to the locus's polymorphic set |
| CodemlProps.TreeLengthLineSets | 6_parse_raw_codeml_files.py:82-84 | a `tree length = ` line sets the tree length to its last token, arms `tree_next` and never raises, even straight after the site-pattern banner |
| CodemlProps.TotalFirstToken | 6_parse_raw_codeml_files.py:78-81 | a `tree length for dN:` or `dS:` line splits into `tree`, `length`, `for` and more, so it never fires the kappa, omega or branch-header rules |
| CodemlProps.TotalNotOther | 6_parse_raw_codeml_files.py:63-81 | a `tree length for` line is neither the site-pattern banner nor a `tree length = ` line, and a `dS:` line is no `dN:` line |
| CodemlProps.TotalStep | 6_parse_raw_codeml_files.py:63-99 | on a `tree`-led line that is no `tree length = ` line, with neither a site-count nor a width line pending, chain one raises nothing and chain two keeps `total_dN` and `total_dS`, raising only as a branch row |
| CodemlProps.TotalDNLineSets | 6_parse_raw_codeml_files.py:78-79 | a `tree length for dN:` line, with neither a site-count nor a width line pending, sets `total_dN` to its last token; it raises only if it is also taken as a branch row |
| CodemlProps.TotalDSLineSets | 6_parse_raw_codeml_files.py:80-81 | a `tree length for dS:` line, with neither a site-count nor a width line pending, sets `total_dS` to its last token; it raises only if it is also taken as a branch row |
| CodemlProps.TreeTextLineCaptures | 6_parse_raw_codeml_files.py:85-87 | the next non-blank line is stored, stripped, as the locus's tree, and no branch rule sees it |
| CodemlProps.BranchHeaderLineSets | 6_parse_raw_codeml_files.py:88-95 | a `branch` line with no tree line pending raises iff it lacks `N` or `S`; otherwise it records their first positions and the width and keeps the first header, even straight after the banner |
| CodemlProps.StepBranchRow | 6_parse_raw_codeml_files.py:96-100 | a line appends a branch row iff the row rule fires, and then counts it and adds its N and S |
| CodemlProps.ScanCountsRows | 6_parse_raw_codeml_files.py:96-98 | over a file the branch table only grows, every new row is tagged with the locus, and `num_compare` counts them |
| CodemlProps.FileCountsRows | 6_parse_raw_codeml_files.py:43-98 | after a file, its locus's `num_compare` is the number of branch rows the file added |
| CodemlProps.StepKeepsHeader | 6_parse_raw_codeml_files.py:89-90 | once recorded, the branch header is never replaced by a line |
| CodemlProps.ScanKeepsHeader | 6_parse_raw_codeml_files.py:89-90 | once recorded, the branch header survives a whole file |
| CodemlProps.FilesKeepHeader | 6_parse_raw_codeml_files.py:89-90 | only the first header of the batch is kept |
| CodemlProps.BeginFileCarriesFlags | 6_parse_raw_codeml_files.py:36-45 | entering a file resets `branch_observed` and the three counters, and carries every other flag over |
| CodemlProps.ScanKeepsLoci | 6_parse_raw_codeml_files.py:43-100 | the line loop keeps the locus list duplicate-free and equal to the keys of `summary_tab` |
| CodemlProps.FilesKeepLociWf | 6_parse_raw_codeml_files.py:36-100 | the file loop keeps the locus list duplicate-free and equal to the keys of `summary_tab` |
| CodemlProps.LocusIdStripsExt | 6_parse_raw_codeml_files.py:41 | a file `stem + ext` whose only `ext` is the suffix gives the locus `stem` |
| CodemlReport.SummaryRowsErrPrefix | 6_parse_raw_codeml_files.py:121-139 | a `KeyError` in a row stops the summary loop |
| CodemlReport.Complete | 6_parse_raw_codeml_files.py:104-110 | a locus is complete iff it has kappa, omega and a compared branch; `MissingList` collects the other loci |
| CodemlReport.MissingLoci | 6_parse_raw_codeml_files.py:103-110 | `loci_w_missing_info` as a set: the incomplete loci |
| CodemlReport.RowOf | 6_parse_raw_codeml_files.py:127-139 | the summary row of a complete locus; characterised by `RowOfMatches` |
| CodemlReport.SummaryRows | 6_parse_raw_codeml_files.py:121-139 | the row loop over the sorted keys; characterised by `ReportedKeys`, `SummaryRowsFail` and `SummaryRowsValues` |
| CodemlReport.SummaryRowsNext | 6_parse_raw_codeml_files.py:121-139 | one more key adds its row when the locus is complete, and raises when the row does |
| CodemlReport.ReportedKeys | 6_parse_raw_codeml_files.py:121-125 | the keys that get a row are exactly the complete ones, in listed order |
| CodemlReport.SummaryRowsFail | 6_parse_raw_codeml_files.py:127-139 | the summary loop raises iff some complete locus lacks `total_dN` or `total_dS` |
| CodemlReport.RowOfMatches | 6_parse_raw_codeml_files.py:127-139 | a row holds the locus's strings, the means `summed_N / num_compare` and `summed_S / num_compare`, and the polymorphic count |
| CodemlReport.SummaryRowsValues | 6_parse_raw_codeml_files.py:121-139 | the rows are the rows of the reported keys, one each, in order |
| CodemlReport.ReportedKeysSorted | 6_parse_raw_codeml_files.py:121-125 | skipping keys keeps sorted order |
| CodemlReport.MissingList | 6_parse_raw_codeml_files.py:103-110 | the missing list holds exactly the loci lacking kappa, omega or any compared branch |
| CodemlReport.SortedMember | 6_parse_raw_codeml_files.py:113 | `sorted` keeps exactly the members of its input |
| CodemlReport.FinishSummary | 6_parse_raw_codeml_files.py:102-139 | the summary is in sorted locus order and lists every complete locus and no other |
| CodemlReport.FinishMissing | 6_parse_raw_codeml_files.py:103-113 | the reported missing loci are sorted and are exactly the incomplete ones |
| CodemlReport.Finish | 6_parse_raw_codeml_files.py:102-143 | the report of the final scanner state; characterised by `FinishSummary` and `FinishMissing` |
| CodemlReport.ParseBatch | 6_parse_raw_codeml_files.py:9-143 | `parse_dnds` on a listing: `sys.exit(1)` without matching files, else the file loop and then `Finish` |
| CodemlBatch.Scanner.constructor | 6_parse_raw_codeml_files.py:23-34 | the scanner starts in the initial state |
| CodemlBatch.Scanner.BeginFile | 6_parse_raw_codeml_files.py:38-45 | entering a file updates the fields as `CodemlScan.BeginFile` |
| CodemlBatch.Scanner.BreakdownCheck | 6_parse_raw_codeml_files.py:55-61 | the in-place breakdown check agrees with `CodemlScan.Breakdown` |
| CodemlBatch.Scanner.SiteCountsAction | 6_parse_raw_codeml_files.py:65-69 | the in-place counts rule agrees with chain one, raising exactly where it does |
| CodemlBatch.Scanner.ParamAction | 6_parse_raw_codeml_files.py:74-77 | the in-place kappa and omega rules agree with chain one, raising exactly where it does |
| CodemlBatch.Scanner.TotalAction | 6_parse_raw_codeml_files.py:78-81 | the in-place `total_dN` and `total_dS` rules agree with chain one and never raise |
| CodemlBatch.Scanner.FirstChain | 6_parse_raw_codeml_files.py:63-81 | the in-place first chain agrees with `CodemlScan.Chain1` |
| CodemlBatch.Scanner.BranchHeaderAction | 6_parse_raw_codeml_files.py:88-95 | the in-place header rule agrees with `CodemlScan.HeaderLine` |
| CodemlBatch.Scanner.BranchRowAction | 6_parse_raw_codeml_files.py:96-100 | the in-place branch-row rule agrees with chain two, raising exactly where it does |
| CodemlBatch.Scanner.SecondChain | 6_parse_raw_codeml_files.py:82-100 | the in-place second chain agrees with `CodemlScan.Chain2` |
| CodemlBatch.Scanner.ScanLine | 6_parse_raw_codeml_files.py:50-100 | one in-place pass of the line loop agrees with `StepLine` |
| CodemlBatch.ScanFileLines | 6_parse_raw_codeml_files.py:49-100 | the line loop on the scanner computes `ScanLines` |
| CodemlBatch.ScanAll | 6_parse_raw_codeml_files.py:36-100 | the file loop computes `ScanFiles` from the initial state |
| CodemlBatch.IncompleteLoci | 6_parse_raw_codeml_files.py:103-110 | the completeness loop collects exactly `MissingList`, in first-seen order |
| CodemlBatch.SummaryTable | 6_parse_raw_codeml_files.py:121-139 | the summary loop computes `SummaryRows` over the sorted keys |
| CodemlBatch.ParseDnds | 6_parse_raw_codeml_files.py:9-143 | the whole of `parse_dnds` computes `ParseBatch` |
| Lrt.CollapseBlanks | 5_LRT_test_omega.py:25 | `re.sub("[\t ]+", "\t")` never lengthens, leaves no space, is empty iff its input is, and ends in a tab iff the input ends in a blank; its content is stated by `CollapseKeepsNonBlank` and `CollapseSpaced` |
| Lrt.CollapseNoDoubleTab | 5_LRT_test_omega.py:25 | no two tabs are adjacent after collapsing |
| Lrt.CollapseIdempotent | 5_LRT_test_omega.py:25 | collapsing twice is collapsing once |
| Lrt.LeadingBlankEmptyField | 5_LRT_test_omega.py:25-26 | a line starting with a blank splits with an empty first field |
| Lrt.CollapseStartsWithTab | 5_LRT_test_omega.py:25 | a line starting with a blank collapses to one starting with a tab |
| Lrt.CollapseKeepsNonBlank | 5_LRT_test_omega.py:25 | collapsing keeps every character other than space and tab, in order |
| Lrt.CollapseAppendWord | 5_LRT_test_omega.py:25 | collapsing a string followed by a blank-free word is collapsing the string, then the word unchanged |
| Lrt.CollapseAppendGap | 5_LRT_test_omega.py:25 | a run of blanks after a word or at the start becomes exactly one tab |
| Lrt.CollapseSpaced | 5_LRT_test_omega.py:25 | words separated by blank runs collapse to the words joined by single tabs, after one tab when the line starts with blanks |
| Lrt.CollapsedFields | 5_LRT_test_omega.py:25-26 | the tab fields of such a collapsed line are the words, after one empty field when the line starts with blanks |
| Lrt.LnLOfSpaced | 5_LRT_test_omega.py:24-30 | a line of blank-separated words gives nothing unless it holds `lnL`; otherwise an `IndexError` with fewer than five tab fields, else `float()` of field 4 (the fifth word, or the fourth after leading blanks) or a `ValueError` on it |
| Lrt.LineLnL | 5_LRT_test_omega.py:24-30 | the value of one line; characterised by `LnLOfSpaced` |
| Lrt.FileLnL | 5_LRT_test_omega.py:23-32 | the value a file leaves behind; characterised by `FileLnLIgnores`, `LastLnLWins` and `NoLnLLine` |
| Lrt.FileLnLIgnores | 5_LRT_test_omega.py:23-32 | lines without `lnL` do not change the value read from a file |
| Lrt.LastLnLWins | 5_LRT_test_omega.py:28-30 | the last `lnL` line of a file gives the locus's value |
| Lrt.NoLnLLine | 5_LRT_test_omega.py:28-32 | a file without an `lnL` line records nothing |
| Lrt.SetAlt | 5_LRT_test_omega.py:43 | storing an alternative value keeps the key order duplicate-free and equal to the keys |
| Lrt.JoinPath | 5_LRT_test_omega.py:17 | `os.path.join` of a directory and a name; `JoinPathParts` states its shape |
| Lrt.JoinPathParts | 5_LRT_test_omega.py:17 | the joined path ends with the name and starts with the directory, unless the name is absolute and is the whole path |
| Lrt.SetNull | 5_LRT_test_omega.py:30 | storing a null value under the locus; `ReadPairRecords` states what it stores |
| Lrt.Gene | 5_LRT_test_omega.py:19 | `file.replace(alt_ext, "")`, the locus of an alternative file |
| Lrt.NullPath | 5_LRT_test_omega.py:18 | `file_path.replace(alt_ext, null_ext)`, in the whole path |
| Lrt.ReadPair | 5_LRT_test_omega.py:17-43 | one pair of files; characterised by `ReadPairRecords`, `ReadPairOk` and `MissingNullFile` |
| Lrt.ReadAll | 5_LRT_test_omega.py:15-47 | the loop over the listing; characterised by `ReadAllWf` and `ReadAllErrPrefix` |
| Lrt.ReadAllWf | 5_LRT_test_omega.py:15-47 | the read loop's alternative table has each gene once, in first-stored order |
| Lrt.MissingNullFile | 5_LRT_test_omega.py:18-22 | a null file that does not exist stops the run naming its path |
| Lrt.ReadPairRecords | 5_LRT_test_omega.py:17-43 | a pair of files stores each file's last `lnL` under the gene name |
| Lrt.LR | 5_LRT_test_omega.py:56 | the LR statistic is non-negative iff the alternative fits at least as well |
| Lrt.LRExample | 5_LRT_test_omega.py:56 | lnL -100 (null) against -90 (alternative) gives LR 20 |
| Lrt.Bonferroni | 5_LRT_test_omega.py:63-64 | the corrected value is p·n when that is at most 1, and 1 otherwise |
| Lrt.BonferroniBounds | 5_LRT_test_omega.py:63-64 | a p-value in [0, 1] is corrected to a value between itself and 1 |
| Lrt.Marker | 5_LRT_test_omega.py:72-75 | the marker is `*` iff the corrected value is below alpha, `NS` otherwise |
| Lrt.RowsOf | 5_LRT_test_omega.py:67-76 | one output row per test |
| Lrt.TestsAligned | 5_LRT_test_omega.py:53-60 | the test loop raises `KeyError` iff some gene has no null value; otherwise row i is gene i with its LR and `sf(LR, df)` |
| Lrt.Tests | 5_LRT_test_omega.py:53-60 | the test loop; characterised by `TestsAligned` and `TestsStop` |
| Lrt.LrtTest | 5_LRT_test_omega.py:12-76 | `lrt_test`; characterised by `LrtRows`, `CorrectedBounds` and `DefaultAlphaFlagsNothing` |
| Lrt.RowsOfAligned | 5_LRT_test_omega.py:63-76 | row i keeps test i's values, its Bonferroni value over n tests, and the marker of that value |
| Lrt.LrtRows | 5_LRT_test_omega.py:15-76 | the output is one row per alternative gene, in insertion order, with its LR and p-value |
| Lrt.MissingNullValue | 5_LRT_test_omega.py:55 | a gene with an alternative but no null value stops the run |
| Lrt.DefaultAlphaIsZero | 5_LRT_test_omega.py:85 | the default alpha `int(0.05)` is 0 |
| Lrt.PyInt | 5_LRT_test_omega.py:85 | Python's `int()` of a float; `PyIntTruncates` states that it truncates toward zero |
| Lrt.PyIntTruncates | 5_LRT_test_omega.py:85 | `int()` gives the integer between zero and x that is less than one away from x |
| Lrt.DefaultAlphaFlagsNothing | 5_LRT_test_omega.py:72-75 | with the default alpha no gene is ever marked `*` |
| Lrt.CorrectedBounds | 5_LRT_test_omega.py:63-64 | every corrected value lies between its raw p-value and 1 |
| Lrt.BonferroniFourLoci | 5_LRT_test_omega.py:63-75 | p-values 0.01, 0.02, 0.5, 0.8 become 0.04, 0.08, 1, 1 and only the first is `*` at alpha 0.05 |
| Lrt.FileLnLErrPrefix | 5_LRT_test_omega.py:23-30 | a bad `lnL` line ends the read |
| Lrt.FileLnLNext | 5_LRT_test_omega.py:23-30 | one more line keeps the value or replaces it by the line's own, and a bad line raises |
| Lrt.ReadAllErrPrefix | 5_LRT_test_omega.py:15-47 | a fault in one pair of files ends the run |
| Lrt.ReadAllNext | 5_LRT_test_omega.py:15-47 | one more listed name reads its pair when it ends in `alt_ext` and is skipped otherwise |
| Lrt.TestsErrPrefix | 5_LRT_test_omega.py:53-60 | a missing null value ends the test loop |
| Lrt.TestsNext | 5_LRT_test_omega.py:54-60 | one more gene with a null value appends its test |
| Lrt.TestsStop | 5_LRT_test_omega.py:55 | the first gene without a null value is the fault of the whole loop |
| Lrt.ReadLnL | 5_LRT_test_omega.py:23-32 | the line loop computes `FileLnL` |
| Lrt.ReadTables | 5_LRT_test_omega.py:13-47 | the file loop computes `ReadAll` |
| Lrt.ReadPairFiles | 5_LRT_test_omega.py:17-43 | reading one pair of files computes `ReadPair` on the tables so far |
| Lrt.ReadPairOk | 5_LRT_test_omega.py:17-43 | when both files exist and read cleanly, the pair stores the null value and then the alternative value |
| Lrt.CorrectAll | 5_LRT_test_omega.py:63-64 | one corrected value per p-value, none above 1, and none below its raw value when that lies in [0, 1] |
| Lrt.TestLoop | 5_LRT_test_omega.py:50-60 | the test loop builds three lists of equal length that zip to `Tests`, or stops with its fault |
| Lrt.OutputRows | 5_LRT_test_omega.py:63-76 | the output loop computes `RowsOf` over the corrected values |
| Lrt.RunLrtTest | 5_LRT_test_omega.py:12-76 | the whole of `lrt_test` computes `LrtTest` |
| Concat.SplitId | 2_generate_concatenated_alignment_nucleotide.py:18-21 | `x&p` gives protein p and genome `x` with `.faa` removed |
| Concat.SplitIdStripsExt | 2_generate_concatenated_alignment_nucleotide.py:18-21 | `g.faa&p` gives protein p and genome g |
| Concat.ProteinOf | 2_generate_concatenated_alignment_nucleotide.py:18-19 | the protein of a record id, absent without `&`; characterised by `SplitId` and `AddRecord` |
| Concat.GenomeOf | 2_generate_concatenated_alignment_nucleotide.py:18-21 | the genome of a record id; characterised by `SplitId` and `SplitIdStripsExt` |
| Concat.GeneOf | 2_generate_concatenated_alignment_nucleotide.py:15 | `file.replace(".faa", "")`, the core gene of a file |
| Concat.AddRecord | 2_generate_concatenated_alignment_nucleotide.py:18-24 | a record raises `IndexError` iff its id has no `&` |
| Concat.AddEventsAppend | 2_generate_concatenated_alignment_nucleotide.py:12-26 | reading `a + b` is reading `a`, then `b` from where `a` stopped |
| Concat.CoreIndexIsStream | 2_generate_concatenated_alignment_nucleotide.py:12-26 | the file loop is one loop over all records of the matching files in listing order |
| Concat.AddEventsLast | 2_generate_concatenated_alignment_nucleotide.py:17-24 | a successful read ends with the last record's step |
| Concat.AddRecordGenomes | 2_generate_concatenated_alignment_nucleotide.py:23-24 | a genome is appended to `genome_list` iff it is not yet there |
| Concat.AddRecordWf | 2_generate_concatenated_alignment_nucleotide.py:18-24 | one record keeps the gene and genome lists duplicate-free and every listed protein mapped to a genome |
| Concat.AddEventsWf | 2_generate_concatenated_alignment_nucleotide.py:12-26 | the whole read keeps those invariants |
| Concat.AddEventsFails | 2_generate_concatenated_alignment_nucleotide.py:18-19 | the read raises iff some record id has no `&` |
| Concat.AddEventsOkStep | 2_generate_concatenated_alignment_nucleotide.py:17-24 | a read with one more record succeeds iff the shorter read succeeds and that record id has a `&` |
| Concat.AddEvents | 2_generate_concatenated_alignment_nucleotide.py:17-24 | the record loop of one core file; characterised by `AddEventsAppend`, `AddEventsFails`, `AddEventsWf`, `GenomeListOrder` and `ProteinsInOrder` |
| Concat.CoreIndex | 2_generate_concatenated_alignment_nucleotide.py:12-26 | the core file loop; `CoreIndexIsStream` makes it one record loop in listing order |
| Concat.GenomeListMembers | 2_generate_concatenated_alignment_nucleotide.py:23-24 | `genome_list` holds exactly the genomes of the records |
| Concat.GenomeStreamLast | 2_generate_concatenated_alignment_nucleotide.py:21 | the genome stream of one more record ends with that record's genome |
| Concat.FirstSeenPair | 2_generate_concatenated_alignment_nucleotide.py:23-24 | one more record keeps any two listed genomes in first-seen order |
| Concat.FirstSeenStep | 2_generate_concatenated_alignment_nucleotide.py:23-24 | one more record keeps `genome_list` in first-seen order |
| Concat.GenomeListOrder | 2_generate_concatenated_alignment_nucleotide.py:23-24 | `genome_list` lists the genomes in the order they first appear |
| Concat.GenomeListStep | 2_generate_concatenated_alignment_nucleotide.py:23-24 | one more record adds its genome to `genome_list` iff the genome is new |
| Concat.ProteinsInOrder | 2_generate_concatenated_alignment_nucleotide.py:20 | a gene's protein list is the proteins of its records, in order, repeats kept |
| Concat.GeneKeys | 2_generate_concatenated_alignment_nucleotide.py:20 | a gene is a key of `aminoacid_seqs` iff it has a record |
| Concat.ProteinGenomeLastWins | 2_generate_concatenated_alignment_nucleotide.py:22 | `protein2genome` maps a protein to the genome of its last record |
| Concat.LastWithIdIsLast | 2_generate_concatenated_alignment_nucleotide.py:70 | the last record with an id is a record with that id and no later one has it |
| Concat.Update | 2_generate_concatenated_alignment_nucleotide.py:34-36 | `d[record.id] = record` for each record in turn; `UpdateLastWins` states that the last record with an id wins and other keys keep their value |
| Concat.RecordMap | 2_generate_concatenated_alignment_nucleotide.py:65-70 | `core_seqs` of one alignment, its records stored by id from an empty dict; characterised through `UpdateLastWins` and used by `AlnFilePiece` |
| Concat.UpdateLastWins | 2_generate_concatenated_alignment_nucleotide.py:68-70 | storing records by id keeps the last record with each id and leaves other keys alone |
| Concat.NucleotideMap | 2_generate_concatenated_alignment_nucleotide.py:29-36 | `all_genomes_seqs` over the genome listing; characterised by `NucleotideMapLastWins` |
| Concat.NucleotideMapLastWins | 2_generate_concatenated_alignment_nucleotide.py:29-36 | an id has a record iff some `.genes.fna` file holds it, and the record is the last one of the last such file |
| Concat.Relabel | 2_generate_concatenated_alignment_nucleotide.py:45-46 | relabelling keeps the sequence, sets the id to the genome and clears the description |
| Concat.LinkGeneRecords | 2_generate_concatenated_alignment_nucleotide.py:42-47 | a gene's linking raises `KeyError` iff a protein has no nucleotide record; otherwise record k is protein k's relabelled |
| Concat.LinkGene | 2_generate_concatenated_alignment_nucleotide.py:40-47 | the records written for one core gene; characterised by `LinkGeneRecords` |
| Concat.LinkAllFiles | 2_generate_concatenated_alignment_nucleotide.py:39-48 | one nucleotide file per core gene, in key order, each its gene's linked records |
| Concat.LinkAll | 2_generate_concatenated_alignment_nucleotide.py:39-48 | the linking loop over the core genes; characterised by `LinkAllFiles` |
| Concat.AddPieces | 2_generate_concatenated_alignment_nucleotide.py:75-81 | adding pieces keeps `seq_len` |
| Concat.AppendPiece | 2_generate_concatenated_alignment_nucleotide.py:78-81 | `genome2seqs[genome].append(piece)` on a `defaultdict`: a new key goes last; `AddPiecesEach` states that each genome gains exactly one piece |
| Concat.AddPiecesEach | 2_generate_concatenated_alignment_nucleotide.py:75-81 | each genome of the list gains exactly one piece; other keys keep theirs |
| Concat.AddPiecesLast | 2_generate_concatenated_alignment_nucleotide.py:75-81 | a successful step ends with the last genome's piece |
| Concat.AddPiecesFreshKeys | 2_generate_concatenated_alignment_nucleotide.py:75-85 | on the first alignment the keys of `genome2seqs` become `genome_list`, in its order |
| Concat.AddPiecesSameKeys | 2_generate_concatenated_alignment_nucleotide.py:75-85 | on later alignments the keys stay as they were |
| Concat.PieceCounts | 2_generate_concatenated_alignment_nucleotide.py:62-81 | after n alignments every genome has n pieces, and the keys are `genome_list`, or none when n is 0 |
| Concat.AlnFilePiece | 2_generate_concatenated_alignment_nucleotide.py:65-81 | a genome's new piece is its last record's sequence, or gaps of the last record's length |
| Concat.AddPiecesFails | 2_generate_concatenated_alignment_nucleotide.py:80 | adding pieces raises iff a genome is missing and no alignment record has yet set `seq_len` |
| Concat.Piece | 2_generate_concatenated_alignment_nucleotide.py:76-81 | the piece of one genome; characterised by `AlnFilePiece` and `AddPiecesFails` |
| Concat.LastLen | 2_generate_concatenated_alignment_nucleotide.py:68-72 | `seq_len` after an alignment: the last record's length, or the old value when the file has none |
| Concat.AlnFile | 2_generate_concatenated_alignment_nucleotide.py:65-81 | one alignment file; characterised by `AlnFilePiece` |
| Concat.Alignments | 2_generate_concatenated_alignment_nucleotide.py:62-81 | the alignment file loop; characterised by `PieceCounts` and `ConcatWidth` |
| Concat.ConcatWidth | 2_generate_concatenated_alignment_nucleotide.py:62-88 | with alignments of uniform width, every concatenation is as long as the sum of their widths |
| Concat.OutputBlocks | 2_generate_concatenated_alignment_nucleotide.py:83-88 | the output has one block per genome of `genome_list`, in its order, with one piece per alignment, or is empty without alignments |
| Concat.Block | 2_generate_concatenated_alignment_nucleotide.py:86-88 | one genome of the output file: the header line and the concatenated pieces |
| Concat.AlignmentText | 2_generate_concatenated_alignment_nucleotide.py:83-89 | the output file, a block per key in order; characterised by `OutputBlocks` |
| Concat.RunProgram | 2_generate_concatenated_alignment_nucleotide.py:7-91 | the in-memory `run_program`; characterised by `OutputBlocks` and `OutputUnbound` |
| Concat.OutputUnbound | 2_generate_concatenated_alignment_nucleotide.py:41-91 | the final message raises `UnboundLocalError` iff the earlier steps succeed, no core gene has a record and the alignment step lists no `.fna` |
| Concat.AddEventsNext | 2_generate_concatenated_alignment_nucleotide.py:17-24 | one more record is one more `AddRecord` |
| Concat.AddRecordSome | 2_generate_concatenated_alignment_nucleotide.py:18-24 | a record with an `&` appends its protein to its gene, maps it to its genome and extends `genome_list` |
| Concat.AddEventsErrPrefix | 2_generate_concatenated_alignment_nucleotide.py:17-24 | a record without `&` ends the read |
| Concat.CoreIndexErrPrefix | 2_generate_concatenated_alignment_nucleotide.py:12-26 | a fault in one core file ends the run |
| Concat.LinkGeneErrPrefix | 2_generate_concatenated_alignment_nucleotide.py:42-47 | a missing nucleotide record ends a gene's linking |
| Concat.LinkAllErrPrefix | 2_generate_concatenated_alignment_nucleotide.py:39-48 | a fault in one gene ends the linking |
| Concat.AddPiecesErrPrefix | 2_generate_concatenated_alignment_nucleotide.py:75-81 | a fault at one genome ends the step |
| Concat.AlignmentsErrPrefix | 2_generate_concatenated_alignment_nucleotide.py:63-81 | a fault in one alignment ends the concatenation |
| Concat.ReadCoreFile | 2_generate_concatenated_alignment_nucleotide.py:17-26 | the record loop of one core file computes `AddEvents` |
| Concat.ReadCoreFiles | 2_generate_concatenated_alignment_nucleotide.py:9-26 | the core file loop computes `CoreIndex` |
| Concat.ReadRecords | 2_generate_concatenated_alignment_nucleotide.py:34-36 | the record loop computes `Update` |
| Concat.ReadNucleotides | 2_generate_concatenated_alignment_nucleotide.py:29-36 | the genome file loop computes `NucleotideMap` |
| Concat.LinkProteins | 2_generate_concatenated_alignment_nucleotide.py:40-47 | the protein loop computes `LinkGene` |
| Concat.LinkGenes | 2_generate_concatenated_alignment_nucleotide.py:39-48 | the gene loop computes `LinkAll` over the keys in insertion order |
| Concat.ReadAlignment | 2_generate_concatenated_alignment_nucleotide.py:65-72 | the alignment's record loop computes `RecordMap` and the last record's length |
| Concat.AppendPieces | 2_generate_concatenated_alignment_nucleotide.py:75-81 | the genome loop computes `AddPieces` |
| Concat.Concatenate | 2_generate_concatenated_alignment_nucleotide.py:62-81 | the alignment file loop computes `Alignments` |
| Concat.WriteAlignment | 2_generate_concatenated_alignment_nucleotide.py:83-89 | the output loop writes `AlignmentText` over the keys of `genome2seqs` |
| Concat.ListAlignmentInputs | 2_generate_concatenated_alignment_nucleotide.py:52-55 | the alignment step binds `output` iff its listing holds a name ending in `.fna` |
| Concat.Run | 2_generate_concatenated_alignment_nucleotide.py:7-91 | the whole in-memory `run_program` computes `RunProgram`, the unbound `output` of the final message included |

## Left out

- File system and I/O: reading and writing files, `os.makedirs`, the `.tre` tree files and the TSV files. The directory listings are inputs in `os.listdir` order, given with each file's lines or FASTA records. The `summary_tab.tsv` and `branch_tab.tsv` texts are kept as rows of fields.
- FASTA parsing by Biopython's `SeqIO`: records are given as id, description and sequence, and `SeqIO.write` is left out.
- MAFFT (2_generate_concatenated_alignment_nucleotide.py:52-59) is an external program. The `.aln` files it writes are a separate input listing. The names that loop lists are an input too, used only to decide whether it binds `output` (line 55) for the final message.
- `float()`, `scipy.stats.chi2.sf` and the `-df` conversion `int(...)` are outside code: `float()` is the parameter `parse`, and `sf` is a parameter. The model does not say they compute the real functions.
- Lrt.Bonferroni: models statsmodels' Bonferroni step as `min(p·n, 1)`; the library itself is not part of this model. On an empty list `multipletests` raises `ZeroDivisionError` (it computes `1./ntests`); the model gives no rows there instead, so a run without alternative files is not modelled as that exception.
- Floating point: numbers are exact reals, so rounding is not modelled. `str(float)` formatting of the printed values is not modelled.
- Standard error output (`print` of the missing loci and the progress lines) is not modelled. The missing loci it would print are returned as a sorted list.
- Python's `set` of missing loci is a duplicate-free list in first-seen order. Only its sorted form is observable.
- The output written before an exception is not modelled: a run that raises is only its fault.
- `str.split()` and `str.rstrip()` treat space, tab, newline, carriage return, vertical tab, form feed and the separators 28-31 (file, group, record and unit separator) as whitespace, as Python does. Other Unicode whitespace is not modelled.
- Record aliasing at 2_generate_concatenated_alignment_nucleotide.py:45-46: relabelling mutates the shared nucleotide record. The model builds a new record. This gives the same files, because a protein's genome is fixed once all core files are read, so any relabelling of a shared record writes the same id and description.
- Command-line parsing (`argparse`) is not modelled, except the default alpha `int(0.05)`.

Where the code and its description differ, the model follows the code:

- A `branch` header line without an `N` or `S` column stops the whole run with `ValueError`, instead of only that file.
- A branch row whose N or S column is not a number stops the run with `ValueError`, instead of skipping the row.
- A complete locus without `total_dN` or `total_dS` stops the run with `KeyError` when its summary row is written.
- A `kappa` or `omega` line of fewer than four tokens, or a counts line of fewer than two, stops the run with `IndexError`.
- The scanner's flags (`just_printed_sites`, `tree_next`, the breakdown state, the branch header) carry over from one file to the next. Only `branch_observed` and the three counters are reset.
- A batch without any `branch` header stops with a `TypeError` when `branch_tab.tsv` is written.
- `seq_len` carries over from one alignment to the next. A genome missing from an alignment before any alignment record has been read is a `NameError` (the fault `NoSeqLen`).
- The default alpha is `int(0.05)`, which is 0, so with the default no gene is marked significant.
- With no core-gene record and no `.fna` in the alignment step's listing, the final message of `run_program` raises `UnboundLocalError` on `output` after the alignment has been written (the fault `NoOutputName`).
