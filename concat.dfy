/** The in-memory part of `run_program` in
    2_generate_concatenated_alignment_nucleotide.py: the protein index built
    from the core-gene FASTA ids, the nucleotide records linked to it, and
    the concatenated alignment with gap padding. A FASTA file is its name
    and its records; directory listings are sequences of files in the order
    `os.listdir` gives them. */
module Concat {
  import opened Wrappers
  import opened Text

  /** A Bio.SeqIO record: id, description and sequence. */
  datatype Record = Record(id: string, description: string, sq: string)

  datatype FastaFile = FastaFile(name: string, records: seq<Record>)

  /** Why `run_program` stops with an exception. */
  datatype ConcatFault =
    | NoProteinName(id: string)          // IndexError on `seq_name[1]`
    | MissingNucleotide(protein: string) // KeyError on `all_genomes_seqs[i]`
    | NoSeqLen                           // `seq_len` read before any alignment record
    | NoOutputName                       // UnboundLocalError on `output` at the final message

  const ProteinExt: string := ".faa"
  const NucleotideExt: string := ".genes.fna"
  const AlignmentExt: string := ".aln"
  const FnaExt: string := ".fna"

  // ------------------------------------------------------------ record ids

  /** `str(record.id).split("&")[1]`, absent when the id has no `&`. */
  function ProteinOf(id: string): Option<string> {
    var parts := SplitOn(id, '&');
    if |parts| < 2 then None else Some(parts[1])
  }

  /** `seq_name[0].replace(".faa", "")`. */
  function GenomeOf(id: string): string {
    Replace(SplitOn(id, '&')[0], ProteinExt, [])
  }

  /** An id `X&P` names protein `P` of genome `X`, with `.faa` removed. */
  lemma SplitId(x: string, p: string)
    requires '&' !in x && '&' !in p
    ensures ProteinOf(x + "&" + p) == Some(p)
    ensures GenomeOf(x + "&" + p) == Replace(x, ProteinExt, [])
  {
    SplitOnFirstSep(x, '&', p);
    SplitOnNoSep(p, '&');
  }

  /** With `X` = `G.faa`, where `.faa` occurs only as that suffix, the
      genome is `G`. */
  lemma SplitIdStripsExt(g: string, p: string)
    requires '&' !in g && '&' !in p
    requires forall i :: 0 <= i < |g| ==> !StartsWith((g + ProteinExt)[i..], ProteinExt)
    ensures ProteinOf(g + ProteinExt + "&" + p) == Some(p)
    ensures GenomeOf(g + ProteinExt + "&" + p) == g
  {
    SplitId(g + ProteinExt, p);
    ReplaceStripsSuffix(g, ProteinExt);
  }

  // ------------------------------------------------------------ the protein index

  /** One record of a core-gene file: the gene (`file.replace(".faa","")`)
      and the record id. */
  datatype Event = Event(gene: string, id: string)

  function GeneOf(name: string): string {
    Replace(name, ProteinExt, [])
  }

  function FileEvents(gene: string, recs: seq<Record>): seq<Event>
  {
    seq(|recs|, k requires 0 <= k < |recs| => Event(gene, recs[k].id))
  }

  /** `aminoacid_seqs` (its keys in insertion order in `genes`),
      `protein2genome` and `genome_list`. */
  datatype Index = Index(genes: seq<string>, proteins: map<string, seq<string>>,
                         protein2genome: map<string, string>, genomes: seq<string>)

  const NoIndex: Index := Index([], map[], map[], [])

  predicate Distinct(xs: seq<string>) {
    forall i, j :: 0 <= i < j < |xs| ==> xs[i] != xs[j]
  }

  /** Each gene and genome listed once, the gene list being the keys of
      `aminoacid_seqs`, and every listed protein mapped to a genome. */
  ghost predicate IndexWf(ix: Index) {
    && Distinct(ix.genes)
    && Distinct(ix.genomes)
    && (forall g :: g in ix.proteins <==> g in ix.genes)
    && (forall g, p :: g in ix.proteins && p in ix.proteins[g] ==> p in ix.protein2genome)
  }

  /** The body of the record loop (2_generate_concatenated_alignment_nucleotide.py:18-26). */
  function AddRecord(ix: Index, e: Event): (r: Result<Index, ConcatFault>)
    ensures r.Ok? <==> ProteinOf(e.id).Some?
  {
    match ProteinOf(e.id)
    case None => Err(NoProteinName(e.id))
    case Some(p) =>
      var g := GenomeOf(e.id);
      var old_ := if e.gene in ix.proteins then ix.proteins[e.gene] else [];
      Ok(Index(if e.gene in ix.proteins then ix.genes else ix.genes + [e.gene],
               ix.proteins[e.gene := old_ + [p]],
               ix.protein2genome[p := g],
               if g in ix.genomes then ix.genomes else ix.genomes + [g]))
  }

  function AddEvents(ix: Index, ev: seq<Event>): Result<Index, ConcatFault> {
    if ev == [] then Ok(ix)
    else
      match AddEvents(ix, ev[..|ev| - 1])
      case Err(f) => Err(f)
      case Ok(m) => AddRecord(m, ev[|ev| - 1])
  }

  /** The nested loop over the core-gene files (2_generate_concatenated_alignment_nucleotide.py:12-26). */
  function CoreIndex(files: seq<FastaFile>): Result<Index, ConcatFault> {
    if files == [] then Ok(NoIndex)
    else
      match CoreIndex(files[..|files| - 1])
      case Err(f) => Err(f)
      case Ok(ix) =>
        var file := files[|files| - 1];
        if EndsWith(file.name, ProteinExt) then AddEvents(ix, FileEvents(GeneOf(file.name), file.records))
        else Ok(ix)
  }

  /** All the records of the core-gene files, in reading order. */
  function CoreEvents(files: seq<FastaFile>): seq<Event> {
    if files == [] then []
    else
      var file := files[|files| - 1];
      CoreEvents(files[..|files| - 1])
        + (if EndsWith(file.name, ProteinExt) then FileEvents(GeneOf(file.name), file.records) else [])
  }

  lemma {:induction false} AddEventsAppend(ix: Index, a: seq<Event>, b: seq<Event>)
    ensures AddEvents(ix, a + b) == match AddEvents(ix, a) case Err(f) => Err(f) case Ok(m) => AddEvents(m, b)
  {
    if b == [] {
      assert a + b == a;
    } else {
      assert (a + b)[..|a + b| - 1] == a + b[..|b| - 1];
      AddEventsAppend(ix, a, b[..|b| - 1]);
    }
  }

  /** Reading file by file is reading the whole record stream. */
  lemma {:induction false} CoreIndexIsStream(files: seq<FastaFile>)
    ensures CoreIndex(files) == AddEvents(NoIndex, CoreEvents(files))
  {
    if files != [] {
      CoreIndexIsStream(files[..|files| - 1]);
      var file := files[|files| - 1];
      if EndsWith(file.name, ProteinExt) {
        AddEventsAppend(NoIndex, CoreEvents(files[..|files| - 1]), FileEvents(GeneOf(file.name), file.records));
      } else {
        assert CoreEvents(files) == CoreEvents(files[..|files| - 1]) + [];
        assert CoreEvents(files) == CoreEvents(files[..|files| - 1]);
      }
    }
  }

  lemma AddEventsLast(ix: Index, ev: seq<Event>)
    requires ev != [] && AddEvents(ix, ev).Ok?
    ensures AddEvents(ix, ev[..|ev| - 1]).Ok?
    ensures AddEvents(ix, ev) == AddRecord(AddEvents(ix, ev[..|ev| - 1]).value, ev[|ev| - 1])
  {
  }

  /** What one record does to `genome_list`. */
  lemma AddRecordGenomes(ix: Index, e: Event)
    requires AddRecord(ix, e).Ok?
    ensures var g := GenomeOf(e.id);
            AddRecord(ix, e).value.genomes == if g in ix.genomes then ix.genomes else ix.genomes + [g]
  {
  }

  lemma AddRecordWf(ix: Index, e: Event)
    requires IndexWf(ix) && AddRecord(ix, e).Ok?
    ensures IndexWf(AddRecord(ix, e).value)
  {
  }

  lemma {:induction false} AddEventsWf(ix: Index, ev: seq<Event>)
    requires IndexWf(ix) && AddEvents(ix, ev).Ok?
    ensures IndexWf(AddEvents(ix, ev).value)
  {
    if ev != [] {
      AddEventsWf(ix, ev[..|ev| - 1]);
      AddRecordWf(AddEvents(ix, ev[..|ev| - 1]).value, ev[|ev| - 1]);
    }
  }

  /** The index fails exactly when some record id has no `&`. */
  lemma {:induction false} AddEventsFails(ix: Index, ev: seq<Event>)
    ensures AddEvents(ix, ev).Err? <==> exists k :: 0 <= k < |ev| && ProteinOf(ev[k].id).None?
  {
    if ev != [] {
      var init := ev[..|ev| - 1];
      var e := ev[|ev| - 1];
      AddEventsFails(ix, init);
      AddEventsOkStep(ix, ev);
      if AddEvents(ix, init).Err? {
        var k :| 0 <= k < |init| && ProteinOf(init[k].id).None?;
        assert ev[k] == init[k];
      } else if ProteinOf(e.id).None? {
        assert ProteinOf(ev[|ev| - 1].id).None?;
      } else {
        forall k | 0 <= k < |ev| ensures ProteinOf(ev[k].id).Some? {
          if k < |init| {
            assert ev[k] == init[k];
          } else {
            assert ev[k] == e;
          }
        }
      }
    }
  }

  /** A read succeeds iff its prefix does and the last id has an `&`. */
  lemma AddEventsOkStep(ix: Index, ev: seq<Event>)
    requires ev != []
    ensures AddEvents(ix, ev).Ok? <==> AddEvents(ix, ev[..|ev| - 1]).Ok? && ProteinOf(ev[|ev| - 1].id).Some?
  {
  }

  /** The genome names of a record stream, in order. */
  function GenomeStream(ev: seq<Event>): seq<string>
  {
    seq(|ev|, k requires 0 <= k < |ev| => GenomeOf(ev[k].id))
  }

  /** `genome_list` holds each genome of the stream once, and no other. */
  lemma {:induction false} GenomeListMembers(ev: seq<Event>)
    requires AddEvents(NoIndex, ev).Ok?
    ensures forall g :: g in AddEvents(NoIndex, ev).value.genomes <==> g in GenomeStream(ev)
  {
    if ev != [] {
      var init := ev[..|ev| - 1];
      GenomeListMembers(init);
      GenomeStreamLast(ev);
    }
  }

  /** Names of `gl` come in the order of their first occurrences in `s`. */
  predicate FirstSeenOrder(s: seq<string>, gl: seq<string>) {
    forall i, j :: 0 <= i < j < |gl| ==> SeenBefore(s, gl[i], gl[j])
  }

  /** `a` and `b` both occur in `s`, `a` first. */
  predicate SeenBefore(s: seq<string>, a: string, b: string) {
    IndexOf(s, a).Some? && IndexOf(s, b).Some? && IndexOf(s, a).value < IndexOf(s, b).value
  }

  lemma FirstSeenPair(s0: seq<string>, gl0: seq<string>, x: string, i: int, j: int)
    requires forall y :: y in gl0 <==> y in s0
    requires FirstSeenOrder(s0, gl0)
    requires var gl := if x in gl0 then gl0 else gl0 + [x]; 0 <= i < j < |gl|
    ensures var gl := if x in gl0 then gl0 else gl0 + [x];
            SeenBefore(s0 + [x], gl[i], gl[j])
  {
    var gl := if x in gl0 then gl0 else gl0 + [x];
    assert gl[i] == gl0[i] && gl0[i] in s0;
    IndexOfAppend(s0, x, gl[i]);
    IndexOfAppend(s0, x, gl[j]);
    if j < |gl0| {
      assert gl[j] == gl0[j] && gl0[j] in s0;
    } else {
      assert gl[j] == x && x !in s0;
    }
  }

  /** The list of distinct names kept in first-seen order stays so when one
      more name is read. */
  lemma FirstSeenStep(s0: seq<string>, gl0: seq<string>, x: string)
    requires forall y :: y in gl0 <==> y in s0
    requires FirstSeenOrder(s0, gl0)
    ensures FirstSeenOrder(s0 + [x], if x in gl0 then gl0 else gl0 + [x])
  {
    var gl := if x in gl0 then gl0 else gl0 + [x];
    forall i, j | 0 <= i < j < |gl|
      ensures SeenBefore(s0 + [x], gl[i], gl[j])
    {
      FirstSeenPair(s0, gl0, x, i, j);
    }
    assert FirstSeenOrder(s0 + [x], gl);
  }

  /** One more record extends the genome stream by its genome, and
      `genome_list` by that genome when it is new. */
  lemma GenomeListStep(ev: seq<Event>)
    requires ev != [] && AddEvents(NoIndex, ev).Ok?
    ensures AddEvents(NoIndex, ev[..|ev| - 1]).Ok?
    ensures var gl0 := AddEvents(NoIndex, ev[..|ev| - 1]).value.genomes;
            var x := GenomeOf(ev[|ev| - 1].id);
            && GenomeStream(ev) == GenomeStream(ev[..|ev| - 1]) + [x]
            && AddEvents(NoIndex, ev).value.genomes == if x in gl0 then gl0 else gl0 + [x]
  {
    AddEventsLast(NoIndex, ev);
    AddRecordGenomes(AddEvents(NoIndex, ev[..|ev| - 1]).value, ev[|ev| - 1]);
    GenomeStreamLast(ev);
  }

  lemma GenomeStreamLast(ev: seq<Event>)
    requires ev != []
    ensures GenomeStream(ev) == GenomeStream(ev[..|ev| - 1]) + [GenomeOf(ev[|ev| - 1].id)]
  {
  }

  /** ... in the order in which each genome is first seen. */
  lemma {:induction false} GenomeListOrder(ev: seq<Event>)
    requires AddEvents(NoIndex, ev).Ok?
    ensures FirstSeenOrder(GenomeStream(ev), AddEvents(NoIndex, ev).value.genomes)
  {
    if ev != [] {
      var init := ev[..|ev| - 1];
      GenomeListStep(ev);
      GenomeListOrder(init);
      GenomeListMembers(init);
      FirstSeenStep(GenomeStream(init), AddEvents(NoIndex, init).value.genomes, GenomeOf(ev[|ev| - 1].id));
    }
  }

  /** The protein names of one gene in the stream, in order. */
  function ProteinsOf(ev: seq<Event>, gene: string): seq<string> {
    if ev == [] then []
    else
      var e := ev[|ev| - 1];
      ProteinsOf(ev[..|ev| - 1], gene)
        + (if e.gene == gene && ProteinOf(e.id).Some? then [ProteinOf(e.id).value] else [])
  }

  /** `aminoacid_seqs[gene]` lists that gene's proteins in reading order. */
  lemma {:induction false} ProteinsInOrder(ev: seq<Event>, gene: string)
    requires AddEvents(NoIndex, ev).Ok?
    ensures var ix := AddEvents(NoIndex, ev).value;
            ProteinsOf(ev, gene) == if gene in ix.proteins then ix.proteins[gene] else []
  {
    if ev != [] {
      ProteinsInOrder(ev[..|ev| - 1], gene);
    }
  }

  /** A gene is a key of `aminoacid_seqs` exactly when it has a record. */
  lemma {:induction false} GeneKeys(ev: seq<Event>, gene: string)
    requires AddEvents(NoIndex, ev).Ok?
    ensures gene in AddEvents(NoIndex, ev).value.proteins <==> exists k :: 0 <= k < |ev| && ev[k].gene == gene
  {
    if ev != [] {
      var init := ev[..|ev| - 1];
      GeneKeys(init, gene);
      AddEventsLast(NoIndex, ev);
      assert forall k :: 0 <= k < |init| ==> init[k] == ev[k];
      assert AddRecord(AddEvents(NoIndex, init).value, ev[|ev| - 1]).value.proteins.Keys
             == AddEvents(NoIndex, init).value.proteins.Keys + {ev[|ev| - 1].gene};
    }
  }

  /** The genome of the last record naming `protein`. */
  function LastGenome(ev: seq<Event>, protein: string): Option<string> {
    if ev == [] then None
    else if ProteinOf(ev[|ev| - 1].id) == Some(protein) then Some(GenomeOf(ev[|ev| - 1].id))
    else LastGenome(ev[..|ev| - 1], protein)
  }

  /** `protein2genome` keeps the last mapping seen. */
  lemma {:induction false} ProteinGenomeLastWins(ev: seq<Event>, protein: string)
    requires AddEvents(NoIndex, ev).Ok?
    ensures var m := AddEvents(NoIndex, ev).value.protein2genome;
            && (protein in m <==> LastGenome(ev, protein).Some?)
            && (protein in m ==> m[protein] == LastGenome(ev, protein).value)
  {
    if ev != [] {
      ProteinGenomeLastWins(ev[..|ev| - 1], protein);
    }
  }

  // ------------------------------------------------------------ records by id

  /** Assigning `records[record.id] = record` for each record in turn. */
  function Update(m: map<string, Record>, recs: seq<Record>): map<string, Record> {
    if recs == [] then m else Update(m, recs[..|recs| - 1])[recs[|recs| - 1].id := recs[|recs| - 1]]
  }

  function RecordMap(recs: seq<Record>): map<string, Record> {
    Update(map[], recs)
  }

  /** The last record with a given id. */
  function LastWithId(recs: seq<Record>, id: string): Option<Record> {
    if recs == [] then None
    else if recs[|recs| - 1].id == id then Some(recs[|recs| - 1])
    else LastWithId(recs[..|recs| - 1], id)
  }

  /** ... is one of the records, has that id, and no later record has it. */
  lemma {:induction false} LastWithIdIsLast(recs: seq<Record>, id: string)
    ensures LastWithId(recs, id).None? <==> forall k :: 0 <= k < |recs| ==> recs[k].id != id
    ensures LastWithId(recs, id).Some? ==>
            exists k :: 0 <= k < |recs| && recs[k] == LastWithId(recs, id).value && recs[k].id == id
                        && forall k' :: k < k' < |recs| ==> recs[k'].id != id
  {
    if recs != [] {
      var n := |recs| - 1;
      if recs[n].id == id {
        assert recs[n] == LastWithId(recs, id).value;
      } else {
        var init := recs[..n];
        LastWithIdIsLast(init, id);
        assert LastWithId(recs, id) == LastWithId(init, id);
        if LastWithId(init, id).Some? {
          var k :| 0 <= k < |init| && init[k] == LastWithId(init, id).value && init[k].id == id
                   && forall k' :: k < k' < |init| ==> init[k'].id != id;
          assert recs[k] == init[k];
          assert forall k' :: k < k' < |recs| ==> recs[k'].id != id by {
            forall k' | k < k' < |recs| ensures recs[k'].id != id {
              if k' < n { assert recs[k'] == init[k']; }
            }
          }
        } else {
          forall k | 0 <= k < |recs| ensures recs[k].id != id {
            if k < n { assert recs[k] == init[k]; }
          }
        }
      }
    }
  }

  /** When ids repeat, the last record wins; ids that do not occur keep
      what was there. */
  lemma {:induction false} UpdateLastWins(m: map<string, Record>, recs: seq<Record>, id: string)
    ensures id in Update(m, recs) <==> id in m || LastWithId(recs, id).Some?
    ensures LastWithId(recs, id).Some? ==> Update(m, recs)[id] == LastWithId(recs, id).value
    ensures LastWithId(recs, id).None? && id in m ==> Update(m, recs)[id] == m[id]
  {
    if recs != [] {
      UpdateLastWins(m, recs[..|recs| - 1], id);
    }
  }

  // ------------------------------------------------------------ nucleotide map

  /** `all_genomes_seqs` over the genome folder listing
      (2_generate_concatenated_alignment_nucleotide.py:29-36). */
  function NucleotideMap(files: seq<FastaFile>): map<string, Record> {
    if files == [] then map[]
    else
      var m := NucleotideMap(files[..|files| - 1]);
      var file := files[|files| - 1];
      if EndsWith(file.name, NucleotideExt) then Update(m, file.records) else m
  }

  /** `file` is a listed genome file holding a record with this id. */
  predicate HasNucleotide(file: FastaFile, id: string) {
    EndsWith(file.name, NucleotideExt) && LastWithId(file.records, id).Some?
  }

  /** A protein has a nucleotide record iff some `.genes.fna` file holds
      its id; the record kept is the last one of the last such file. */
  lemma {:induction false} NucleotideMapLastWins(files: seq<FastaFile>, id: string)
    ensures id in NucleotideMap(files) <==> exists k :: 0 <= k < |files| && HasNucleotide(files[k], id)
    ensures id in NucleotideMap(files) ==>
            exists k :: && 0 <= k < |files| && HasNucleotide(files[k], id)
                        && NucleotideMap(files)[id] == LastWithId(files[k].records, id).value
                        && forall k' :: k < k' < |files| ==> !HasNucleotide(files[k'], id)
  {
    if files != [] {
      var n := |files| - 1;
      var init := files[..n];
      var file := files[n];
      NucleotideMapLastWins(init, id);
      assert forall k :: 0 <= k < n ==> files[k] == init[k];
      var m := NucleotideMap(init);
      if EndsWith(file.name, NucleotideExt) {
        UpdateLastWins(m, file.records, id);
      }
      if HasNucleotide(file, id) {
        assert NucleotideMap(files)[id] == LastWithId(files[n].records, id).value;
      } else if id in m {
        var k :| && 0 <= k < |init| && HasNucleotide(init[k], id)
                 && m[id] == LastWithId(init[k].records, id).value
                 && forall k' :: k < k' < |init| ==> !HasNucleotide(init[k'], id);
        assert NucleotideMap(files)[id] == m[id];
        assert forall k' :: k < k' < |files| ==> !HasNucleotide(files[k'], id) by {
          forall k' | k < k' < |files| ensures !HasNucleotide(files[k'], id) {
            if k' < n { assert files[k'] == init[k']; }
          }
        }
        assert HasNucleotide(files[k], id);
      } else {
        assert id !in NucleotideMap(files);
        forall k | 0 <= k < |files| ensures !HasNucleotide(files[k], id) {
          if k < n { assert files[k] == init[k]; }
        }
      }
    }
  }

  // ------------------------------------------------------------ linking

  /** The record written for a protein: its nucleotide record with the id
      replaced by the genome name and an empty description. */
  function Relabel(rec: Record, genome: string): (r: Record)
    ensures r.sq == rec.sq && r.id == genome && r.description == []
  {
    rec.(id := genome, description := [])
  }

  /** `core_seqs` of one core gene (2_generate_concatenated_alignment_nucleotide.py:40-47). */
  function LinkGene(proteins: seq<string>, p2g: map<string, string>, nuc: map<string, Record>): Result<seq<Record>, ConcatFault>
    requires forall p :: p in proteins ==> p in p2g
  {
    if proteins == [] then Ok([])
    else
      match LinkGene(proteins[..|proteins| - 1], p2g, nuc)
      case Err(f) => Err(f)
      case Ok(rs) =>
        var p := proteins[|proteins| - 1];
        if p !in nuc then Err(MissingNucleotide(p)) else Ok(rs + [Relabel(nuc[p], p2g[p])])
  }

  /** One record per protein, in order, relabelled with its genome; it fails
      exactly when some protein has no nucleotide record. */
  lemma {:induction false} LinkGeneRecords(proteins: seq<string>, p2g: map<string, string>, nuc: map<string, Record>)
    requires forall p :: p in proteins ==> p in p2g
    ensures LinkGene(proteins, p2g, nuc).Err? <==> exists p :: p in proteins && p !in nuc
    ensures LinkGene(proteins, p2g, nuc).Ok? ==>
            var rs := LinkGene(proteins, p2g, nuc).value;
            |rs| == |proteins| && forall k :: 0 <= k < |rs| ==> rs[k] == Relabel(nuc[proteins[k]], p2g[proteins[k]])
  {
    if proteins != [] {
      var init := proteins[..|proteins| - 1];
      var p := proteins[|proteins| - 1];
      assert proteins == init + [p];
      LinkGeneRecords(init, p2g, nuc);
      if LinkGene(init, p2g, nuc).Err? {
        var w :| w in init && w !in nuc;
        assert w in proteins;
      } else if p in nuc {
        assert forall w :: w in proteins ==> w in init || w == p;
      }
    }
  }

  /** One output FASTA file: `key + ".fna"` and its records. */
  datatype GeneFile = GeneFile(gene: string, records: seq<Record>)

  /** The loop over `aminoacid_seqs.items()` (2_generate_concatenated_alignment_nucleotide.py:39-47). */
  function LinkAll(ix: Index, genes: seq<string>, nuc: map<string, Record>): Result<seq<GeneFile>, ConcatFault>
    requires IndexWf(ix) && forall g :: g in genes ==> g in ix.proteins
  {
    if genes == [] then Ok([])
    else
      match LinkAll(ix, genes[..|genes| - 1], nuc)
      case Err(f) => Err(f)
      case Ok(out) =>
        var g := genes[|genes| - 1];
        match LinkGene(ix.proteins[g], ix.protein2genome, nuc)
        case Err(f) => Err(f)
        case Ok(rs) => Ok(out + [GeneFile(g, rs)])
  }

  /** One output file per gene, in the order of `aminoacid_seqs`. */
  lemma {:induction false} LinkAllFiles(ix: Index, genes: seq<string>, nuc: map<string, Record>)
    requires IndexWf(ix) && forall g :: g in genes ==> g in ix.proteins
    requires LinkAll(ix, genes, nuc).Ok?
    ensures var out := LinkAll(ix, genes, nuc).value;
            |out| == |genes| && forall i :: 0 <= i < |out| ==>
              && LinkGene(ix.proteins[genes[i]], ix.protein2genome, nuc).Ok?
              && out[i] == GeneFile(genes[i], LinkGene(ix.proteins[genes[i]], ix.protein2genome, nuc).value)
  {
    if genes != [] {
      LinkAllFiles(ix, genes[..|genes| - 1], nuc);
    }
  }

  // ------------------------------------------------------------ concatenation

  /** `seq_len` (which lives on from one alignment to the next) and
      `genome2seqs` with its keys in insertion order. */
  datatype AlnState = AlnState(seqLen: Option<nat>, keys: seq<string>, pieces: map<string, seq<string>>)

  const NoPieces: AlnState := AlnState(None, [], map[])

  /** `genome2seqs[genome]`, a defaultdict read. */
  function PiecesOf(st: AlnState, g: string): seq<string> {
    if g in st.pieces then st.pieces[g] else []
  }

  /** The piece of one genome (2_generate_concatenated_alignment_nucleotide.py:76-81):
      its aligned sequence, or `'-' * seq_len`. */
  function Piece(core: map<string, Record>, seqLen: Option<nat>, g: string): Result<string, ConcatFault> {
    if g in core then Ok(core[g].sq)
    else if seqLen.None? then Err(NoSeqLen)
    else Ok(Repeat('-', seqLen.value))
  }

  function AppendPiece(st: AlnState, g: string, piece: string): AlnState {
    st.(keys := if g in st.pieces then st.keys else st.keys + [g],
        pieces := st.pieces[g := PiecesOf(st, g) + [piece]])
  }

  /** The loop over `genome_list` for one alignment. */
  function AddPieces(st: AlnState, core: map<string, Record>, genomes: seq<string>): (r: Result<AlnState, ConcatFault>)
    ensures r.Ok? ==> r.value.seqLen == st.seqLen
  {
    if genomes == [] then Ok(st)
    else
      match AddPieces(st, core, genomes[..|genomes| - 1])
      case Err(f) => Err(f)
      case Ok(s) =>
        var g := genomes[|genomes| - 1];
        match Piece(core, st.seqLen, g)
        case Err(f) => Err(f)
        case Ok(piece) => Ok(AppendPiece(s, g, piece))
  }

  /** `seq_len` after reading an alignment: the length of its last record,
      or what it was when the file has none. */
  function LastLen(seqLen: Option<nat>, recs: seq<Record>): Option<nat> {
    if recs == [] then seqLen else Some(|recs[|recs| - 1].sq|)
  }

  /** One alignment file (2_generate_concatenated_alignment_nucleotide.py:65-81). */
  function AlnFile(st: AlnState, recs: seq<Record>, genomes: seq<string>): Result<AlnState, ConcatFault> {
    AddPieces(st.(seqLen := LastLen(st.seqLen, recs)), RecordMap(recs), genomes)
  }

  /** The loop over the alignment listing (2_generate_concatenated_alignment_nucleotide.py:62-81). */
  function Alignments(files: seq<FastaFile>, genomes: seq<string>): Result<AlnState, ConcatFault> {
    if files == [] then Ok(NoPieces)
    else
      match Alignments(files[..|files| - 1], genomes)
      case Err(f) => Err(f)
      case Ok(st) =>
        var file := files[|files| - 1];
        if EndsWith(file.name, AlignmentExt) then AlnFile(st, file.records, genomes) else Ok(st)
  }

  /** The number of alignment files listed. */
  function AlnCount(files: seq<FastaFile>): nat {
    if files == [] then 0
    else AlnCount(files[..|files| - 1]) + (if EndsWith(files[|files| - 1].name, AlignmentExt) then 1 else 0)
  }

  /** One alignment adds exactly one piece to every listed genome and
      leaves the others alone. */
  lemma {:induction false} AddPiecesEach(st: AlnState, core: map<string, Record>, genomes: seq<string>, g: string)
    requires Distinct(genomes) && AddPieces(st, core, genomes).Ok?
    ensures g in genomes ==> Piece(core, st.seqLen, g).Ok?
    ensures PiecesOf(AddPieces(st, core, genomes).value, g) ==
            if g in genomes && Piece(core, st.seqLen, g).Ok? then PiecesOf(st, g) + [Piece(core, st.seqLen, g).value]
            else PiecesOf(st, g)
  {
    if genomes != [] {
      var init := genomes[..|genomes| - 1];
      assert genomes == init + [genomes[|genomes| - 1]];
      AddPiecesEach(st, core, init, g);
    }
  }

  lemma AddPiecesLast(st: AlnState, core: map<string, Record>, genomes: seq<string>)
    requires genomes != [] && AddPieces(st, core, genomes).Ok?
    ensures var init := genomes[..|genomes| - 1];
            var g := genomes[|genomes| - 1];
            && AddPieces(st, core, init).Ok? && Piece(core, st.seqLen, g).Ok?
            && AddPieces(st, core, genomes).value == AppendPiece(AddPieces(st, core, init).value, g, Piece(core, st.seqLen, g).value)
  {
  }

  /** Into an empty `genome2seqs` the keys go in `genome_list` order. */
  lemma {:induction false} AddPiecesFreshKeys(st: AlnState, core: map<string, Record>, genomes: seq<string>)
    requires Distinct(genomes) && st.keys == [] && st.pieces == map[] && AddPieces(st, core, genomes).Ok?
    ensures AddPieces(st, core, genomes).value.keys == genomes
    ensures forall g :: g in AddPieces(st, core, genomes).value.pieces <==> g in genomes
  {
    if genomes != [] {
      var init := genomes[..|genomes| - 1];
      var g := genomes[|genomes| - 1];
      AddPiecesLast(st, core, genomes);
      AddPiecesFreshKeys(st, core, init);
      assert g !in init;
      assert genomes == init + [g];
    }
  }

  /** Once every genome is a key, the keys stay as they are. */
  lemma {:induction false} AddPiecesSameKeys(st: AlnState, core: map<string, Record>, genomes: seq<string>)
    requires AddPieces(st, core, genomes).Ok? && forall g :: g in genomes ==> g in st.pieces
    ensures AddPieces(st, core, genomes).value.keys == st.keys
    ensures forall g :: g in AddPieces(st, core, genomes).value.pieces <==> g in st.pieces
  {
    if genomes != [] {
      AddPiecesSameKeys(st, core, genomes[..|genomes| - 1]);
    }
  }

  /** `genome2seqs` after `n` alignments: empty when none was listed,
      otherwise keyed by `genome_list` in its order, every genome having
      exactly `n` pieces. */
  ghost predicate Shaped(st: AlnState, genomes: seq<string>, n: nat) {
    && (n == 0 ==> st.keys == [] && st.pieces == map[])
    && (n > 0 ==> st.keys == genomes && forall g :: g in st.pieces <==> g in genomes)
    && forall g :: g in genomes ==> |PiecesOf(st, g)| == n
  }

  lemma {:induction false} PieceCounts(files: seq<FastaFile>, genomes: seq<string>)
    requires Distinct(genomes) && Alignments(files, genomes).Ok?
    ensures Shaped(Alignments(files, genomes).value, genomes, AlnCount(files))
  {
    if files != [] {
      var init := files[..|files| - 1];
      var file := files[|files| - 1];
      PieceCounts(init, genomes);
      if EndsWith(file.name, AlignmentExt) {
        var st := Alignments(init, genomes).value;
        var st1 := st.(seqLen := LastLen(st.seqLen, file.records));
        var core := RecordMap(file.records);
        if AlnCount(init) == 0 {
          AddPiecesFreshKeys(st1, core, genomes);
        } else {
          AddPiecesSameKeys(st1, core, genomes);
        }
        forall g | g in genomes ensures |PiecesOf(AddPieces(st1, core, genomes).value, g)| == AlnCount(files) {
          AddPiecesEach(st1, core, genomes, g);
        }
      }
    }
  }

  /** The piece an alignment gives a listed genome: the sequence of the last
      record with that id, or a run of `-` as long as the last record read. */
  lemma AlnFilePiece(st: AlnState, recs: seq<Record>, genomes: seq<string>, g: string)
    requires Distinct(genomes) && AlnFile(st, recs, genomes).Ok? && g in genomes
    ensures var last := LastWithId(recs, g);
            PiecesOf(AlnFile(st, recs, genomes).value, g) ==
              PiecesOf(st, g) + [if last.Some? then last.value.sq else Repeat('-', LastLen(st.seqLen, recs).value)]
  {
    AddPiecesEach(st.(seqLen := LastLen(st.seqLen, recs)), RecordMap(recs), genomes, g);
    UpdateLastWins(map[], recs, g);
  }

  /** An alignment fails exactly when a genome is missing from it and no
      alignment record has been read yet. */
  lemma {:induction false} AddPiecesFails(st: AlnState, core: map<string, Record>, genomes: seq<string>)
    ensures AddPieces(st, core, genomes).Err? <==> st.seqLen.None? && exists g :: g in genomes && g !in core
  {
    if genomes != [] {
      var init := genomes[..|genomes| - 1];
      AddPiecesFails(st, core, init);
      assert forall w :: w in genomes <==> w in init || w == genomes[|genomes| - 1];
    }
  }

  /** Every alignment file has records, all of one width. */
  predicate Uniform(files: seq<FastaFile>) {
    forall i :: 0 <= i < |files| && EndsWith(files[i].name, AlignmentExt) ==>
      files[i].records != [] &&
      forall k :: 0 <= k < |files[i].records| ==> |files[i].records[k].sq| == |files[i].records[0].sq|
  }

  /** The sum of the alignment widths. */
  function TotalWidth(files: seq<FastaFile>): nat
    requires Uniform(files)
  {
    if files == [] then 0
    else
      var file := files[|files| - 1];
      TotalWidth(files[..|files| - 1]) + (if EndsWith(file.name, AlignmentExt) then |file.records[0].sq| else 0)
  }

  /** With uniform alignments, every concatenation is as long as the sum of
      the widths. */
  lemma {:induction false} ConcatWidth(files: seq<FastaFile>, genomes: seq<string>, g: string)
    requires Distinct(genomes) && g in genomes && Uniform(files) && Alignments(files, genomes).Ok?
    ensures |Concat(PiecesOf(Alignments(files, genomes).value, g))| == TotalWidth(files)
  {
    if files != [] {
      var init := files[..|files| - 1];
      var file := files[|files| - 1];
      assert Uniform(init) by {
        forall i | 0 <= i < |init| ensures init[i] == files[i] { }
      }
      ConcatWidth(init, genomes, g);
      if EndsWith(file.name, AlignmentExt) {
        var st := Alignments(init, genomes).value;
        var recs := file.records;
        AlnFilePiece(st, recs, genomes, g);
        var ps := PiecesOf(Alignments(files, genomes).value, g);
        var piece := ps[|ps| - 1];
        assert ps[..|ps| - 1] == PiecesOf(st, g);
        assert |piece| == |recs[0].sq| by {
          var last := LastWithId(recs, g);
          LastWithIdIsLast(recs, g);
          if last.Some? {
            var k :| 0 <= k < |recs| && recs[k] == last.value;
          }
        }
      }
    }
  }

  // ------------------------------------------------------------ output

  /** One genome of the output file (2_generate_concatenated_alignment_nucleotide.py:86-88). */
  function Block(g: string, pieces: seq<string>): string {
    ">" + g + "\n" + Concat(pieces) + "\n"
  }

  /** The output file: a block per key of `genome2seqs`, in key order. */
  function AlignmentText(st: AlnState, keys: seq<string>): string {
    if keys == [] then []
    else AlignmentText(st, keys[..|keys| - 1]) + Block(keys[|keys| - 1], PiecesOf(st, keys[|keys| - 1]))
  }

  /** What `run_program` produces: one nucleotide file per core gene and
      the concatenated alignment. */
  datatype Output = Output(geneFiles: seq<GeneFile>, alignment: string)

  /** Some name of the listing taken by the alignment step (lines 52-59)
      ends in `.fna`, so that step binds `output`. */
  predicate ListsFna(listing: seq<string>) {
    exists k :: 0 <= k < |listing| && EndsWith(listing[k], FnaExt)
  }

  /** `run_program` on the core-gene files, the genome files, the `.aln`
      files and the names the alignment step lists. The final message reads
      `output`, which only the linking loop (one core gene at least) or the
      alignment step (one `.fna` listed) binds; otherwise it raises after
      the alignment has been written. */
  function RunProgram(coreFiles: seq<FastaFile>, genomeFiles: seq<FastaFile>, alnFiles: seq<FastaFile>,
                      listing: seq<string>): Result<Output, ConcatFault> {
    match CoreIndex(coreFiles)
    case Err(f) => Err(f)
    case Ok(ix) =>
      CoreIndexIsStream(coreFiles);
      AddEventsWf(NoIndex, CoreEvents(coreFiles));
      match LinkAll(ix, ix.genes, NucleotideMap(genomeFiles))
      case Err(f) => Err(f)
      case Ok(out) =>
        match Alignments(alnFiles, ix.genomes)
        case Err(f) => Err(f)
        case Ok(st) =>
          if ix.genes == [] && !ListsFna(listing) then Err(NoOutputName)
          else Ok(Output(out, AlignmentText(st, st.keys)))
  }

  /** The final message raises exactly when the earlier steps succeed, no
      core gene has a record and the alignment step lists no `.fna`. */
  lemma OutputUnbound(coreFiles: seq<FastaFile>, genomeFiles: seq<FastaFile>, alnFiles: seq<FastaFile>,
                      listing: seq<string>)
    ensures RunProgram(coreFiles, genomeFiles, alnFiles, listing) == Err(NoOutputName) <==>
              && CoreIndex(coreFiles).Ok?
              && CoreIndex(coreFiles).value.genes == []
              && Alignments(alnFiles, CoreIndex(coreFiles).value.genomes).Ok?
              && !ListsFna(listing)
  {
    if CoreIndex(coreFiles).Ok? {
      CoreIndexIsStream(coreFiles);
      AddEventsWf(NoIndex, CoreEvents(coreFiles));
      var ix := CoreIndex(coreFiles).value;
      LinkAllFaultIsKnown(ix, ix.genes, NucleotideMap(genomeFiles));
      AlignmentsFaultIsKnown(alnFiles, ix.genomes);
    } else {
      CoreIndexFaultIsKnown(coreFiles);
    }
  }

  // The earlier steps raise only their own faults.

  lemma {:induction false} AddEventsFaultIsKnown(ix: Index, ev: seq<Event>)
    ensures AddEvents(ix, ev).Err? ==> AddEvents(ix, ev).error.NoProteinName?
  {
    if ev != [] {
      AddEventsFaultIsKnown(ix, ev[..|ev| - 1]);
    }
  }

  lemma {:induction false} CoreIndexFaultIsKnown(files: seq<FastaFile>)
    ensures CoreIndex(files).Err? ==> CoreIndex(files).error.NoProteinName?
  {
    if files != [] {
      CoreIndexFaultIsKnown(files[..|files| - 1]);
      if CoreIndex(files[..|files| - 1]).Ok? {
        var file := files[|files| - 1];
        AddEventsFaultIsKnown(CoreIndex(files[..|files| - 1]).value, FileEvents(GeneOf(file.name), file.records));
      }
    }
  }

  lemma {:induction false} LinkGeneFaultIsKnown(proteins: seq<string>, p2g: map<string, string>, nuc: map<string, Record>)
    requires forall p :: p in proteins ==> p in p2g
    ensures LinkGene(proteins, p2g, nuc).Err? ==> LinkGene(proteins, p2g, nuc).error.MissingNucleotide?
  {
    if proteins != [] {
      LinkGeneFaultIsKnown(proteins[..|proteins| - 1], p2g, nuc);
    }
  }

  lemma {:induction false} LinkAllFaultIsKnown(ix: Index, genes: seq<string>, nuc: map<string, Record>)
    requires IndexWf(ix) && forall g :: g in genes ==> g in ix.proteins
    ensures LinkAll(ix, genes, nuc).Err? ==> LinkAll(ix, genes, nuc).error.MissingNucleotide?
  {
    if genes != [] {
      LinkAllFaultIsKnown(ix, genes[..|genes| - 1], nuc);
      LinkGeneFaultIsKnown(ix.proteins[genes[|genes| - 1]], ix.protein2genome, nuc);
    }
  }

  lemma {:induction false} AddPiecesFaultIsKnown(st: AlnState, core: map<string, Record>, genomes: seq<string>)
    ensures AddPieces(st, core, genomes).Err? ==> AddPieces(st, core, genomes).error == NoSeqLen
  {
    if genomes != [] {
      AddPiecesFaultIsKnown(st, core, genomes[..|genomes| - 1]);
    }
  }

  lemma {:induction false} AlignmentsFaultIsKnown(files: seq<FastaFile>, genomes: seq<string>)
    ensures Alignments(files, genomes).Err? ==> Alignments(files, genomes).error == NoSeqLen
  {
    if files != [] {
      AlignmentsFaultIsKnown(files[..|files| - 1], genomes);
      var st := Alignments(files[..|files| - 1], genomes);
      if st.Ok? {
        var file := files[|files| - 1];
        AddPiecesFaultIsKnown(st.value.(seqLen := LastLen(st.value.seqLen, file.records)), RecordMap(file.records), genomes);
      }
    }
  }

  /** With at least one alignment, the output has one block per genome of
      `genome_list`, in its order, each holding as many pieces as there are
      alignments; with none, it is empty. */
  lemma OutputBlocks(coreFiles: seq<FastaFile>, genomeFiles: seq<FastaFile>, alnFiles: seq<FastaFile>,
                     listing: seq<string>)
    requires RunProgram(coreFiles, genomeFiles, alnFiles, listing).Ok?
    ensures var ix := CoreIndex(coreFiles).value;
            var st := Alignments(alnFiles, ix.genomes).value;
            && RunProgram(coreFiles, genomeFiles, alnFiles, listing).value.alignment ==
                 (if AlnCount(alnFiles) == 0 then [] else AlignmentText(st, ix.genomes))
            && forall g :: g in ix.genomes ==> |PiecesOf(st, g)| == AlnCount(alnFiles)
  {
    CoreIndexIsStream(coreFiles);
    AddEventsWf(NoIndex, CoreEvents(coreFiles));
    var ix := CoreIndex(coreFiles).value;
    PieceCounts(alnFiles, ix.genomes);
  }

  // ------------------------------------------------------------ the loops

  lemma AddEventsNext(ix: Index, ev: seq<Event>, e: Event)
    requires AddEvents(ix, ev).Ok?
    ensures AddEvents(ix, ev + [e]) == AddRecord(AddEvents(ix, ev).value, e)
  {
    assert (ev + [e])[..|ev|] == ev;
  }

  /** One record with a protein name, spelled out. */
  lemma AddRecordSome(ix: Index, e: Event, p: string, g: string)
    requires ProteinOf(e.id) == Some(p) && GenomeOf(e.id) == g
    ensures AddRecord(ix, e) == Ok(Index(
              if e.gene in ix.proteins then ix.genes else ix.genes + [e.gene],
              ix.proteins[e.gene := (if e.gene in ix.proteins then ix.proteins[e.gene] else []) + [p]],
              ix.protein2genome[p := g],
              if g in ix.genomes then ix.genomes else ix.genomes + [g]))
  {
  }

  lemma {:induction false} AddEventsErrPrefix(ix: Index, ev: seq<Event>, k: nat)
    requires k <= |ev| && AddEvents(ix, ev[..k]).Err?
    ensures AddEvents(ix, ev) == AddEvents(ix, ev[..k])
  {
    if k < |ev| {
      assert ev[..|ev| - 1][..k] == ev[..k];
      AddEventsErrPrefix(ix, ev[..|ev| - 1], k);
    } else {
      assert ev[..k] == ev;
    }
  }

  lemma {:induction false} CoreIndexErrPrefix(files: seq<FastaFile>, k: nat)
    requires k <= |files| && CoreIndex(files[..k]).Err?
    ensures CoreIndex(files) == CoreIndex(files[..k])
  {
    if k < |files| {
      assert files[..|files| - 1][..k] == files[..k];
      CoreIndexErrPrefix(files[..|files| - 1], k);
    } else {
      assert files[..k] == files;
    }
  }

  /** The records of one core-gene file (2_generate_concatenated_alignment_nucleotide.py:17-26),
      filling the four collections in place. */
  method ReadCoreFile(ix: Index, coreGene: string, recs: seq<Record>) returns (r: Result<Index, ConcatFault>)
    ensures r == AddEvents(ix, FileEvents(coreGene, recs))
  {
    ghost var evs := FileEvents(coreGene, recs);
    assert |evs| == |recs|;
    var genes, aminoacidSeqs, protein2genome, genomeList := ix.genes, ix.proteins, ix.protein2genome, ix.genomes;
    var j := 0;
    while j < |recs|
      invariant 0 <= j <= |recs|
      invariant AddEvents(ix, evs[..j]) == Ok(Index(genes, aminoacidSeqs, protein2genome, genomeList))
    {
      var id := recs[j].id;
      ghost var e := Event(coreGene, id);
      assert evs[j] == e;
      ghost var prev := Index(genes, aminoacidSeqs, protein2genome, genomeList);
      assert evs[..j + 1] == evs[..j] + [e];
      AddEventsNext(ix, evs[..j], e);
      var protein := ProteinOf(id);
      if protein.None? {
        AddEventsErrPrefix(ix, evs, j + 1);
        return Err(NoProteinName(id));
      }
      var proteinName := protein.value;
      var genomeName := GenomeOf(id);
      AddRecordSome(prev, e, proteinName, genomeName);
      // `aminoacid_seqs[core_gene].append(...)` on a defaultdict
      var current := if coreGene in aminoacidSeqs then aminoacidSeqs[coreGene] else [];
      if coreGene !in aminoacidSeqs {
        genes := genes + [coreGene];
      }
      aminoacidSeqs := aminoacidSeqs[coreGene := current + [proteinName]];
      protein2genome := protein2genome[proteinName := genomeName];
      if genomeName !in genomeList {
        genomeList := genomeList + [genomeName];
      }
      j := j + 1;
    }
    assert evs[..j] == evs;
    return Ok(Index(genes, aminoacidSeqs, protein2genome, genomeList));
  }

  /** The loop over the core-gene listing (2_generate_concatenated_alignment_nucleotide.py:12-26). */
  method ReadCoreFiles(files: seq<FastaFile>) returns (r: Result<Index, ConcatFault>)
    ensures r == CoreIndex(files)
  {
    var ix := NoIndex;
    var i := 0;
    while i < |files|
      invariant 0 <= i <= |files|
      invariant CoreIndex(files[..i]) == Ok(ix)
    {
      assert files[..i + 1][..i] == files[..i];
      var file := files[i];
      if EndsWith(file.name, ProteinExt) {
        var next := ReadCoreFile(ix, GeneOf(file.name), file.records);
        if next.Err? {
          CoreIndexErrPrefix(files, i + 1);
          return next;
        }
        ix := next.value;
      }
      i := i + 1;
    }
    assert files[..i] == files;
    return Ok(ix);
  }

  /** Filling a map from records by id, in place. */
  method ReadRecords(m: map<string, Record>, recs: seq<Record>) returns (m': map<string, Record>)
    ensures m' == Update(m, recs)
  {
    m' := m;
    var j := 0;
    while j < |recs|
      invariant 0 <= j <= |recs|
      invariant m' == Update(m, recs[..j])
    {
      assert recs[..j + 1][..j] == recs[..j];
      m' := m'[recs[j].id := recs[j]];
      j := j + 1;
    }
    assert recs[..j] == recs;
  }

  /** `all_genomes_seqs` (2_generate_concatenated_alignment_nucleotide.py:29-36). */
  method ReadNucleotides(files: seq<FastaFile>) returns (allGenomesSeqs: map<string, Record>)
    ensures allGenomesSeqs == NucleotideMap(files)
  {
    allGenomesSeqs := map[];
    var i := 0;
    while i < |files|
      invariant 0 <= i <= |files|
      invariant allGenomesSeqs == NucleotideMap(files[..i])
    {
      assert files[..i + 1][..i] == files[..i];
      if EndsWith(files[i].name, NucleotideExt) {
        allGenomesSeqs := ReadRecords(allGenomesSeqs, files[i].records);
      }
      i := i + 1;
    }
    assert files[..i] == files;
  }

  lemma {:induction false} LinkGeneErrPrefix(proteins: seq<string>, p2g: map<string, string>, nuc: map<string, Record>, k: nat)
    requires forall p :: p in proteins ==> p in p2g
    requires k <= |proteins| && LinkGene(proteins[..k], p2g, nuc).Err?
    ensures LinkGene(proteins, p2g, nuc) == LinkGene(proteins[..k], p2g, nuc)
  {
    if k < |proteins| {
      assert proteins[..|proteins| - 1][..k] == proteins[..k];
      LinkGeneErrPrefix(proteins[..|proteins| - 1], p2g, nuc, k);
    } else {
      assert proteins[..k] == proteins;
    }
  }

  lemma {:induction false} LinkAllErrPrefix(ix: Index, genes: seq<string>, nuc: map<string, Record>, k: nat)
    requires IndexWf(ix) && forall g :: g in genes ==> g in ix.proteins
    requires k <= |genes| && LinkAll(ix, genes[..k], nuc).Err?
    ensures LinkAll(ix, genes, nuc) == LinkAll(ix, genes[..k], nuc)
  {
    if k < |genes| {
      assert genes[..|genes| - 1][..k] == genes[..k];
      LinkAllErrPrefix(ix, genes[..|genes| - 1], nuc, k);
    } else {
      assert genes[..k] == genes;
    }
  }

  /** `core_seqs` of one gene (2_generate_concatenated_alignment_nucleotide.py:40-47). */
  method LinkProteins(proteins: seq<string>, protein2genome: map<string, string>, allGenomesSeqs: map<string, Record>)
    returns (r: Result<seq<Record>, ConcatFault>)
    requires forall p :: p in proteins ==> p in protein2genome
    ensures r == LinkGene(proteins, protein2genome, allGenomesSeqs)
  {
    var coreSeqs: seq<Record> := [];
    var j := 0;
    while j < |proteins|
      invariant 0 <= j <= |proteins|
      invariant LinkGene(proteins[..j], protein2genome, allGenomesSeqs) == Ok(coreSeqs)
    {
      assert proteins[..j + 1][..j] == proteins[..j];
      var i := proteins[j];
      var genomeName := protein2genome[i];
      if i !in allGenomesSeqs {
        LinkGeneErrPrefix(proteins, protein2genome, allGenomesSeqs, j + 1);
        return Err(MissingNucleotide(i));
      }
      var iSeq := allGenomesSeqs[i].(id := genomeName, description := []);
      coreSeqs := coreSeqs + [iSeq];
      j := j + 1;
    }
    assert proteins[..j] == proteins;
    return Ok(coreSeqs);
  }

  /** The loop over `aminoacid_seqs.items()` (2_generate_concatenated_alignment_nucleotide.py:39-47). */
  method LinkGenes(ix: Index, allGenomesSeqs: map<string, Record>) returns (r: Result<seq<GeneFile>, ConcatFault>)
    requires IndexWf(ix)
    ensures r == LinkAll(ix, ix.genes, allGenomesSeqs)
  {
    var out: seq<GeneFile> := [];
    var k := 0;
    while k < |ix.genes|
      invariant 0 <= k <= |ix.genes|
      invariant LinkAll(ix, ix.genes[..k], allGenomesSeqs) == Ok(out)
    {
      assert ix.genes[..k + 1][..k] == ix.genes[..k];
      var key := ix.genes[k];
      var coreSeqs := LinkProteins(ix.proteins[key], ix.protein2genome, allGenomesSeqs);
      if coreSeqs.Err? {
        LinkAllErrPrefix(ix, ix.genes, allGenomesSeqs, k + 1);
        return Err(coreSeqs.error);
      }
      out := out + [GeneFile(key, coreSeqs.value)];
      k := k + 1;
    }
    assert ix.genes[..k] == ix.genes;
    return Ok(out);
  }

  lemma {:induction false} AddPiecesErrPrefix(st: AlnState, core: map<string, Record>, genomes: seq<string>, k: nat)
    requires k <= |genomes| && AddPieces(st, core, genomes[..k]).Err?
    ensures AddPieces(st, core, genomes) == AddPieces(st, core, genomes[..k])
  {
    if k < |genomes| {
      assert genomes[..|genomes| - 1][..k] == genomes[..k];
      AddPiecesErrPrefix(st, core, genomes[..|genomes| - 1], k);
    } else {
      assert genomes[..k] == genomes;
    }
  }

  lemma {:induction false} AlignmentsErrPrefix(files: seq<FastaFile>, genomes: seq<string>, k: nat)
    requires k <= |files| && Alignments(files[..k], genomes).Err?
    ensures Alignments(files, genomes) == Alignments(files[..k], genomes)
  {
    if k < |files| {
      assert files[..|files| - 1][..k] == files[..k];
      AlignmentsErrPrefix(files[..|files| - 1], genomes, k);
    } else {
      assert files[..k] == files;
    }
  }

  /** Reading one alignment (2_generate_concatenated_alignment_nucleotide.py:68-72):
      `core_seqs` and the `seq_len` it leaves. */
  method ReadAlignment(recs: seq<Record>, seqLen: Option<nat>) returns (coreSeqs: map<string, Record>, seqLen': Option<nat>)
    ensures coreSeqs == RecordMap(recs) && seqLen' == LastLen(seqLen, recs)
  {
    coreSeqs, seqLen' := map[], seqLen;
    var j := 0;
    while j < |recs|
      invariant 0 <= j <= |recs|
      invariant coreSeqs == RecordMap(recs[..j]) && seqLen' == LastLen(seqLen, recs[..j])
    {
      assert recs[..j + 1][..j] == recs[..j];
      coreSeqs := coreSeqs[recs[j].id := recs[j]];
      seqLen' := Some(|recs[j].sq|);
      j := j + 1;
    }
    assert recs[..j] == recs;
  }

  /** The loop over `genome_list` for one alignment (2_generate_concatenated_alignment_nucleotide.py:75-81). */
  method AppendPieces(st: AlnState, coreSeqs: map<string, Record>, genomeList: seq<string>) returns (r: Result<AlnState, ConcatFault>)
    ensures r == AddPieces(st, coreSeqs, genomeList)
  {
    var keys, genome2seqs := st.keys, st.pieces;
    var k := 0;
    while k < |genomeList|
      invariant 0 <= k <= |genomeList|
      invariant AddPieces(st, coreSeqs, genomeList[..k]) == Ok(AlnState(st.seqLen, keys, genome2seqs))
    {
      assert genomeList[..k + 1][..k] == genomeList[..k];
      var genome := genomeList[k];
      var piece: string;
      if genome in coreSeqs {
        piece := coreSeqs[genome].sq;
      } else if st.seqLen.None? {
        AddPiecesErrPrefix(st, coreSeqs, genomeList, k + 1);
        return Err(NoSeqLen);
      } else {
        piece := Repeat('-', st.seqLen.value);
      }
      ghost var prev := AlnState(st.seqLen, keys, genome2seqs);
      assert Piece(coreSeqs, st.seqLen, genome) == Ok(piece);
      // `genome2seqs[genome].append(...)` on a defaultdict
      var current := if genome in genome2seqs then genome2seqs[genome] else [];
      if genome !in genome2seqs {
        keys := keys + [genome];
      }
      genome2seqs := genome2seqs[genome := current + [piece]];
      assert AppendPiece(prev, genome, piece) == AlnState(st.seqLen, keys, genome2seqs);
      k := k + 1;
    }
    assert genomeList[..k] == genomeList;
    return Ok(AlnState(st.seqLen, keys, genome2seqs));
  }

  /** The loop over the alignment listing (2_generate_concatenated_alignment_nucleotide.py:62-81). */
  method Concatenate(files: seq<FastaFile>, genomeList: seq<string>) returns (r: Result<AlnState, ConcatFault>)
    ensures r == Alignments(files, genomeList)
  {
    var st := NoPieces;
    var i := 0;
    while i < |files|
      invariant 0 <= i <= |files|
      invariant Alignments(files[..i], genomeList) == Ok(st)
    {
      assert files[..i + 1][..i] == files[..i];
      var file := files[i];
      if EndsWith(file.name, AlignmentExt) {
        var coreSeqs, seqLen := ReadAlignment(file.records, st.seqLen);
        var next := AppendPieces(st.(seqLen := seqLen), coreSeqs, genomeList);
        if next.Err? {
          AlignmentsErrPrefix(files, genomeList, i + 1);
          return next;
        }
        st := next.value;
      }
      i := i + 1;
    }
    assert files[..i] == files;
    return Ok(st);
  }

  /** Writing the concatenated alignment (2_generate_concatenated_alignment_nucleotide.py:83-88). */
  method WriteAlignment(st: AlnState) returns (text: string)
    ensures text == AlignmentText(st, st.keys)
  {
    text := [];
    var k := 0;
    while k < |st.keys|
      invariant 0 <= k <= |st.keys|
      invariant text == AlignmentText(st, st.keys[..k])
    {
      assert st.keys[..k + 1][..k] == st.keys[..k];
      var key := st.keys[k];
      var allSeqs := Concat(PiecesOf(st, key));
      text := text + ">" + key + "\n" + allSeqs + "\n";
      k := k + 1;
    }
    assert st.keys[..k] == st.keys;
  }

  /** The alignment step (lines 52-59) with MAFFT left out: whether it
      binds `output`, that is, whether it lists some `.fna`. */
  method ListAlignmentInputs(listing: seq<string>) returns (bound: bool)
    ensures bound <==> ListsFna(listing)
  {
    bound := false;
    var k := 0;
    while k < |listing|
      invariant 0 <= k <= |listing|
      invariant bound <==> exists j :: 0 <= j < k && EndsWith(listing[j], FnaExt)
    {
      if EndsWith(listing[k], FnaExt) {
        bound := true;
      }
      k := k + 1;
    }
  }

  /** The in-memory part of `run_program`; `listing` is what the alignment
      step lists. */
  method Run(coreFiles: seq<FastaFile>, genomeFiles: seq<FastaFile>, alnFiles: seq<FastaFile>,
             listing: seq<string>) returns (r: Result<Output, ConcatFault>)
    ensures r == RunProgram(coreFiles, genomeFiles, alnFiles, listing)
  {
    var index := ReadCoreFiles(coreFiles);
    if index.Err? {
      return Err(index.error);
    }
    var ix := index.value;
    CoreIndexIsStream(coreFiles);
    AddEventsWf(NoIndex, CoreEvents(coreFiles));
    var allGenomesSeqs := ReadNucleotides(genomeFiles);
    var linked := LinkGenes(ix, allGenomesSeqs);
    if linked.Err? {
      return Err(linked.error);
    }
    // The linking loop binds `output` once per core gene.
    var outputBound := ix.genes != [];
    var listed := ListAlignmentInputs(listing);
    outputBound := outputBound || listed;
    var st := Concatenate(alnFiles, ix.genomes);
    if st.Err? {
      return Err(st.error);
    }
    var text := WriteAlignment(st.value);
    if !outputBound {
      return Err(NoOutputName);
    }
    return Ok(Output(linked.value, text));
  }
}
