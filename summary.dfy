/** The report merger: reads the per-MAG reports (CheckM2, CheckM strain
    heterogeneity, relative abundance, GUNC, gene counts, GTDB-Tk
    classification, dnadiff, QUAST), normalises their MAG ids, substitutes
    placeholder tables for the optional reports that are empty files,
    outer-joins everything on the MAG id in a fixed order, and adds the
    `MIMAG_Quality` and `GUNC_Status` columns. */
module Summary {
  import opened Wrappers
  import opened Text
  import opened Tables
  import opened Quality
  import Abundance

  // The columns each report contributes, in the order they are joined.
  const BaseColumns: seq<string> := ["completeness", "contamination", "N50", "size", "GC"]
  const GuncColumns: seq<string> := ["clade_separation_score", "n_effective_surplus_clades"]
  const StrainColumns: seq<string> := ["strain_het"]
  const GeneColumns: seq<string> :=
    ["num_cds", "num_trna", "num_rrna_total", "num_rrna_5s", "num_rrna_16s", "num_rrna_23s"]
  const RaColumns: seq<string> := ["avg_mag_ra"]
  const TaxonomyColumns: seq<string> := ["classification"]
  const DiffColumns: seq<string> := ["bin_cov", "ref_cov", "ANI"]
  const QuastColumns: seq<string> :=
    ["genome_fraction", "NG50", "NA50", "num_misassemb", "prop_misassemb_ctgs",
     "prop_misassemb_len", "prop_unaln_ctgs", "prop_unaln_len"]
  const LabelColumns: seq<string> := ["MIMAG_Quality", "GUNC_Status"]

  /** The columns the seven joined tables contribute, in join order. */
  const JoinedColumnNames: seq<string> :=
    GuncColumns + (StrainColumns + (GeneColumns + (RaColumns
    + (TaxonomyColumns + (DiffColumns + QuastColumns)))))

  /** The CheckM2 columns kept: `Name`, `Completeness`, `Contamination`,
      `Contig_N50`, `Genome_Size`, `GC_Content`. */
  datatype CheckM2Row = CheckM2Row(
    name: string, completeness: real, contamination: real, n50: int, size: real, gc: real)

  /** CheckM's `Bin Id` and `Strain heterogeneity`. */
  datatype StrainRow = StrainRow(binId: string, strainHet: real)

  /** GUNC's `genome`, `clade_separation_score` and
      `n_effective_surplus_clades`; either score may be NaN. */
  datatype GuncRow = GuncRow(genome: string, cladeSeparationScore: Option<real>,
                             nEffectiveSurplusClades: Option<real>)

  /** A gene-count record: a `bin.N` style label and six counts. */
  datatype GeneCountRow = GeneCountRow(
    binLabel: string, cds: int, trna: int, rrnaTotal: int, rrna5s: int, rrna16s: int, rrna23s: int)

  /** GTDB-Tk's `user_genome` and `classification`. */
  datatype TaxonomyRow = TaxonomyRow(userGenome: string, classification: string)

  /** A dnadiff summary line: query path, reference, reference length,
      reference coverage, bin size, bin coverage, ANI. */
  datatype DiffRow = DiffRow(query: string, reference: string, refLen: real, refCov: real,
                             binSize: real, binCov: real, ani: real)

  /** An aggregated QUAST row: `mag` and the eight metric cells. */
  datatype QuastRow = QuastRow(mag: string, metrics: seq<Cell>)

  /** The script's inputs. The reports read with a header row (CheckM2,
      CheckM, abundance, GUNC, classification, QUAST) are their data rows, so
      `[]` is a header with no rows; the two optional ones among them that
      the script first tests with `getsize` are `None` when they are
      zero-byte files. The gene-count and dnadiff files are read without a
      header row, so for them `[]` is the zero-byte file. */
  datatype Reports = Reports(
    checkm2: seq<CheckM2Row>,
    checkm1: seq<StrainRow>,
    magRa: seq<Abundance.MagAbundance>,
    gunc: seq<GuncRow>,
    gtdb: Option<seq<TaxonomyRow>>,
    diff: seq<DiffRow>,
    quast: Option<seq<QuastRow>>,
    geneCounts: seq<GeneCountRow>)

  /** A number that may be NaN, as a cell. */
  function NumCell(x: Option<real>): Cell {
    if x.Some? then Num(x.value) else Null
  }

  // MAG-id normalisation.

  /** `str(label).split('.')[1]`: `bin.3` becomes `3`; a label without a
      dot raises. */
  function GeneMag(binLabel: string): Option<string> {
    var parts := Split(binLabel, ".");
    if |parts| < 2 then None else Some(parts[1])
  }

  /** `str(path).split('/')[-1].split('.')[0]`: the file name cut at its
      first dot. */
  function DiffMag(path: string): string {
    Split(Basename(path), ".")[0]
  }

  lemma GeneMagOfBin(x: string)
    requires '.' !in x
    ensures GeneMag("bin." + x) == Some(x)
  {
    assert "bin." + x == "bin" + "." + x;
    SplitPrefix("bin", ".", x);
    SplitWithoutSeparator(x, ".");
  }

  lemma GeneMagWithoutDot(binLabel: string)
    requires '.' !in binLabel
    ensures GeneMag(binLabel) == None
  {
    SplitWithoutSeparator(binLabel, ".");
  }

  /** `/path/to/X.ext` becomes `X`. */
  lemma DiffMagOfPath(dir: string, x: string, ext: string)
    requires '/' !in x && '/' !in ext && '.' !in x
    ensures DiffMag(dir + "/" + x + "." + ext) == x
  {
    var file := x + "." + ext;
    assert '/' !in file by {
      forall i | 0 <= i < |file| ensures file[i] != '/' {
        if i < |x| { assert file[i] == x[i]; }
        else if i > |x| { assert file[i] == ext[i - |x| - 1]; }
      }
    }
    assert dir + "/" + x + "." + ext == dir + "/" + file;
    SplitLast(dir, "/", file);
    SplitPrefix(x, ".", ext);
  }

  // The key lists of the reports.

  function CheckM2Names(rows: seq<CheckM2Row>): seq<string> {
    seq(|rows|, i requires 0 <= i < |rows| => rows[i].name)
  }

  function StrainNames(rows: seq<StrainRow>): seq<string> {
    seq(|rows|, i requires 0 <= i < |rows| => rows[i].binId)
  }

  function RaNames(rows: seq<Abundance.MagAbundance>): seq<string> {
    seq(|rows|, i requires 0 <= i < |rows| => rows[i].mag)
  }

  function GuncNames(rows: seq<GuncRow>): seq<string> {
    seq(|rows|, i requires 0 <= i < |rows| => rows[i].genome)
  }

  function TaxonomyNames(rows: seq<TaxonomyRow>): seq<string> {
    seq(|rows|, i requires 0 <= i < |rows| => rows[i].userGenome)
  }

  function DiffNames(rows: seq<DiffRow>): seq<string> {
    seq(|rows|, i requires 0 <= i < |rows| => DiffMag(rows[i].query))
  }

  function QuastNames(rows: seq<QuastRow>): seq<string> {
    seq(|rows|, i requires 0 <= i < |rows| => rows[i].mag)
  }

  /** The normalised gene-count labels; `None` when some label raises. */
  function GeneNames(rows: seq<GeneCountRow>): (r: Option<seq<string>>)
    ensures r.Some? <==> forall i :: 0 <= i < |rows| ==> GeneMag(rows[i].binLabel).Some?
    ensures r.Some? ==> |r.value| == |rows|
                        && forall i :: 0 <= i < |rows| ==> r.value[i] == GeneMag(rows[i].binLabel).value
  {
    if forall i :: 0 <= i < |rows| ==> GeneMag(rows[i].binLabel).Some? then
      Some(seq(|rows|, i requires 0 <= i < |rows| => GeneMag(rows[i].binLabel).value))
    else None
  }

  // One table per report.

  function Ids(names: seq<string>): set<string> {
    set m | m in names
  }


  function BaseTable(rows: seq<CheckM2Row>): (t: Table)
    requires Distinct(CheckM2Names(rows))
    ensures WellFormed(t) && t.columns == BaseColumns && t.rows.Keys == Ids(CheckM2Names(rows))
  {
    FromRecords(BaseColumns, CheckM2Names(rows),
      seq(|rows|, i requires 0 <= i < |rows| =>
        var r := rows[i];
        [Num(r.completeness), Num(r.contamination), Num(r.n50 as real), Num(r.size), Num(r.gc)]))
  }

  function GuncTable(rows: seq<GuncRow>): (t: Table)
    requires Distinct(GuncNames(rows))
    ensures WellFormed(t) && t.columns == GuncColumns && t.rows.Keys == Ids(GuncNames(rows))
  {
    FromRecords(GuncColumns, GuncNames(rows),
      seq(|rows|, i requires 0 <= i < |rows| =>
        [NumCell(rows[i].cladeSeparationScore), NumCell(rows[i].nEffectiveSurplusClades)]))
  }

  function StrainTable(rows: seq<StrainRow>): (t: Table)
    requires Distinct(StrainNames(rows))
    ensures WellFormed(t) && t.columns == StrainColumns && t.rows.Keys == Ids(StrainNames(rows))
  {
    FromRecords(StrainColumns, StrainNames(rows),
      seq(|rows|, i requires 0 <= i < |rows| => [Num(rows[i].strainHet)]))
  }

  function GeneTable(rows: seq<GeneCountRow>, names: seq<string>): (t: Table)
    requires |names| == |rows| && Distinct(names)
    ensures WellFormed(t) && t.columns == GeneColumns && t.rows.Keys == Ids(names)
  {
    FromRecords(GeneColumns, names,
      seq(|rows|, i requires 0 <= i < |rows| =>
        var r := rows[i];
        [Num(r.cds as real), Num(r.trna as real), Num(r.rrnaTotal as real),
         Num(r.rrna5s as real), Num(r.rrna16s as real), Num(r.rrna23s as real)]))
  }

  function RaTable(rows: seq<Abundance.MagAbundance>): (t: Table)
    requires Distinct(RaNames(rows))
    ensures WellFormed(t) && t.columns == RaColumns && t.rows.Keys == Ids(RaNames(rows))
  {
    FromRecords(RaColumns, RaNames(rows),
      seq(|rows|, i requires 0 <= i < |rows| => [NumCell(rows[i].avgMagRa)]))
  }

  function TaxonomyTable(rows: seq<TaxonomyRow>): (t: Table)
    requires Distinct(TaxonomyNames(rows))
    ensures WellFormed(t) && t.columns == TaxonomyColumns && t.rows.Keys == Ids(TaxonomyNames(rows))
  {
    FromRecords(TaxonomyColumns, TaxonomyNames(rows),
      seq(|rows|, i requires 0 <= i < |rows| => [Text(rows[i].classification)]))
  }

  function DiffTable(rows: seq<DiffRow>): (t: Table)
    requires Distinct(DiffNames(rows))
    ensures WellFormed(t) && t.columns == DiffColumns && t.rows.Keys == Ids(DiffNames(rows))
  {
    FromRecords(DiffColumns, DiffNames(rows),
      seq(|rows|, i requires 0 <= i < |rows| =>
        [Num(rows[i].binCov), Num(rows[i].refCov), Num(rows[i].ani)]))
  }

  predicate QuastShaped(rows: seq<QuastRow>) {
    forall i :: 0 <= i < |rows| ==> |rows[i].metrics| == |QuastColumns|
  }

  function QuastTable(rows: seq<QuastRow>): (t: Table)
    requires Distinct(QuastNames(rows)) && QuastShaped(rows)
    ensures WellFormed(t) && t.columns == QuastColumns && t.rows.Keys == Ids(QuastNames(rows))
  {
    FromRecords(QuastColumns, QuastNames(rows),
      seq(|rows|, i requires 0 <= i < |rows| => rows[i].metrics))
  }

  // The placeholder tables for empty optional reports, one row per
  // CheckM2 MAG.

  const NaClassification: seq<Cell> := [Text("NA")]
  const NaDiff: seq<Cell> := [Text("NA"), Num(0.0), Num(0.0)]
  const NaQuast: seq<Cell> :=
    [Num(0.0), Num(0.0), Num(0.0), Text("NA"), Text("NA"), Text("NA"), Text("NA"), Text("NA")]

  function Placeholder(columns: seq<string>, names: seq<string>, cells: seq<Cell>): (t: Table)
    requires Distinct(columns) && Distinct(names) && |cells| == |columns|
    ensures WellFormed(t) && t.columns == columns && t.rows.Keys == Ids(names)
  {
    FromRecords(columns, names, seq(|names|, i requires 0 <= i < |names| => cells))
  }

  /** What the script needs of its inputs: MAG ids unique within each
      report it reads (after normalisation), and QUAST rows of nine
      columns. A report that is not read carries no requirement. */
  predicate Valid(r: Reports) {
    && Distinct(CheckM2Names(r.checkm2))
    && Distinct(StrainNames(r.checkm1))
    && Distinct(RaNames(r.magRa))
    && Distinct(GuncNames(r.gunc))
    && (GeneNames(r.geneCounts).Some? ==> Distinct(GeneNames(r.geneCounts).value))
    && (r.gtdb.Some? ==> Distinct(TaxonomyNames(r.gtdb.value)))
    && (r.gtdb.Some? ==> Distinct(DiffNames(r.diff)))
    && (r.quast.Some? ==> Distinct(QuastNames(r.quast.value)) && QuastShaped(r.quast.value))
  }

  /** The script raises: the gene-count file is empty (`read_csv` with no
      header finds no columns), a gene-count label has no dot, or the
      classification report is non-empty and the dnadiff report, read the
      same way, is empty. */
  predicate Raises(r: Reports) {
    || |r.geneCounts| == 0
    || GeneNames(r.geneCounts).None?
    || (r.gtdb.Some? && |r.diff| == 0)
  }

  /** An empty gene-count file raises, and so does an empty dnadiff
      report next to a non-empty classification report. */
  lemma EmptyHeaderlessReportRaises(r: Reports)
    requires Valid(r)
    ensures |r.geneCounts| == 0 ==> Summarise(r) == Failed
    ensures r.gtdb.Some? && |r.diff| == 0 ==> Summarise(r) == Failed
  {
  }

  function ClassificationTable(r: Reports): (t: Table)
    requires Valid(r)
    ensures WellFormed(t) && t.columns == TaxonomyColumns
    ensures t.rows.Keys == if r.gtdb.None? then Ids(CheckM2Names(r.checkm2)) else Ids(TaxonomyNames(r.gtdb.value))
  {
    if r.gtdb.None? then Placeholder(TaxonomyColumns, CheckM2Names(r.checkm2), NaClassification)
    else TaxonomyTable(r.gtdb.value)
  }

  function AlignmentTable(r: Reports): (t: Table)
    requires Valid(r) && !Raises(r)
    ensures WellFormed(t) && t.columns == DiffColumns
    ensures t.rows.Keys == if r.gtdb.None? then Ids(CheckM2Names(r.checkm2)) else Ids(DiffNames(r.diff))
  {
    if r.gtdb.None? then Placeholder(DiffColumns, CheckM2Names(r.checkm2), NaDiff)
    else DiffTable(r.diff)
  }

  function AssemblyTable(r: Reports): (t: Table)
    requires Valid(r)
    ensures WellFormed(t) && t.columns == QuastColumns
    ensures t.rows.Keys == if r.quast.None? then Ids(CheckM2Names(r.checkm2)) else Ids(QuastNames(r.quast.value))
  {
    if r.quast.None? then Placeholder(QuastColumns, CheckM2Names(r.checkm2), NaQuast)
    else QuastTable(r.quast.value)
  }

  /** The seven tables joined onto the CheckM2 table, in the script's order. */
  function Joined(r: Reports): (ts: seq<Table>)
    requires Valid(r) && !Raises(r)
    ensures |ts| == 7 && AllWellFormed(ts)
    ensures ts[0].columns == GuncColumns && ts[1].columns == StrainColumns
    ensures ts[2].columns == GeneColumns && ts[3].columns == RaColumns
    ensures ts[4].columns == TaxonomyColumns && ts[5].columns == DiffColumns
    ensures ts[6].columns == QuastColumns
  {
    Seven(GuncTable(r.gunc), StrainTable(r.checkm1),
          GeneTable(r.geneCounts, GeneNames(r.geneCounts).value), RaTable(r.magRa),
          ClassificationTable(r), AlignmentTable(r), AssemblyTable(r))
  }

  /** The columns of the output: CheckM2's, then those of the joined
      tables in order, then the two labels; no name repeats. */
  lemma JoinedColumns(r: Reports)
    requires Valid(r) && !Raises(r)
    ensures AllColumns(Joined(r)) == JoinedColumnNames
    ensures Distinct(BaseColumns + AllColumns(Joined(r)))
    ensures Distinct(BaseColumns + AllColumns(Joined(r)) + LabelColumns)
  {
    AllColumnsOfSeven(Joined(r));
    AllColumnsDistinct();
    DistinctPrefix(BaseColumns + JoinedColumnNames, LabelColumns);
  }

  lemma AllColumnsDistinct()
    ensures Distinct(BaseColumns + JoinedColumnNames)
    ensures Distinct(BaseColumns + JoinedColumnNames + LabelColumns)
  {
    JoinedNamesDistinct();
    BaseColumnsApart();
    DistinctAppend(BaseColumns, JoinedColumnNames);
    LabelColumnsApart();
    DistinctAppend(BaseColumns + JoinedColumnNames, LabelColumns);
  }

  lemma JoinedNamesDistinct()
    ensures Distinct(JoinedColumnNames)
  {
    var tail := GeneTailDistinct();
    GeneColumnsApart(tail);
    DistinctAppend(GeneColumns, tail);
    tail := GeneColumns + tail;
    DistinctAppend(StrainColumns, tail);
    tail := StrainColumns + tail;
    DistinctAppend(GuncColumns, tail);
  }

  /** The columns joined after the gene counts are distinct. */
  lemma GeneTailDistinct() returns (tail: seq<string>)
    ensures tail == RaColumns + (TaxonomyColumns + (DiffColumns + QuastColumns))
    ensures Distinct(tail)
  {
    tail := QuastColumns;
    DistinctAppend(DiffColumns, tail);
    tail := DiffColumns + tail;
    DistinctAppend(TaxonomyColumns, tail);
    tail := TaxonomyColumns + tail;
    DistinctAppend(RaColumns, tail);
    tail := RaColumns + tail;
  }

  lemma GeneColumnsApart(tail: seq<string>)
    requires tail == RaColumns + (TaxonomyColumns + (DiffColumns + QuastColumns))
    ensures Distinct(GeneColumns)
    ensures forall c :: c in GeneColumns ==> c !in tail
  {
  }

  lemma BaseColumnsApart()
    ensures Distinct(BaseColumns)
    ensures forall c :: c in BaseColumns ==> c !in JoinedColumnNames
  {
  }

  lemma LabelColumnsApart()
    ensures Distinct(LabelColumns)
    ensures forall c :: c in BaseColumns + JoinedColumnNames ==> c !in LabelColumns
  {
  }

  // The two derived columns.

  /** A numeric column of a merged row; NaN when absent or not a number. */
  function NumberIn(row: Row, c: string): Option<real> {
    if c in row && row[c].Num? then Some(row[c].x) else None
  }

  /** The columns the rule table reads. */
  function MetricsOf(row: Row): Metrics {
    Metrics(NumberIn(row, "completeness"), NumberIn(row, "contamination"),
            NumberIn(row, "num_trna"), NumberIn(row, "num_rrna_5s"),
            NumberIn(row, "num_rrna_16s"), NumberIn(row, "num_rrna_23s"))
  }

  function TierCell(t: Option<Tier>): Cell {
    match t
    case None => Null
    case Some(Low) => Text("Low")
    case Some(Medium) => Text("Medium")
    case Some(High) => Text("High")
    case Some(NearComplete) => Text("Near_Complete")
  }

  function GuncCell(g: GuncStatus): Cell {
    if g == Pass then Text("Pass") else Text("Fail")
  }

  function Labels(row: Row): Row {
    map["MIMAG_Quality" := TierCell(MimagTier(MetricsOf(row))),
        "GUNC_Status" := GuncCell(Gunc(NumberIn(row, "clade_separation_score")))]
  }

  /** The merged table with `MIMAG_Quality` and `GUNC_Status` appended;
      every other cell is kept. */
  function Labelled(t: Table): (r: Table)
    requires WellFormed(t) && Distinct(t.columns + LabelColumns)
    ensures WellFormed(r) && r.columns == t.columns + LabelColumns
    ensures r.rows.Keys == t.rows.Keys
    ensures forall m, c :: m in t.rows && c in t.columns ==> r.rows[m][c] == t.rows[m][c]
    ensures forall m :: m in t.rows ==> r.rows[m] == t.rows[m] + Labels(t.rows[m])
  {
    var rows := map m | m in t.rows :: t.rows[m] + Labels(t.rows[m]);
    forall m | m in rows ensures rows[m].Keys == (set c | c in t.columns + LabelColumns) {
      LabelledRow(t.columns, t.rows[m]);
    }
    forall m, c | m in t.rows && c in t.columns ensures rows[m][c] == t.rows[m][c] {
      LabelledRow(t.columns, t.rows[m]);
    }
    Table(t.columns + LabelColumns, rows)
  }

  lemma LabelledRow(columns: seq<string>, row: Row)
    requires Distinct(columns + LabelColumns) && row.Keys == (set c | c in columns)
    ensures (row + Labels(row)).Keys == (set c | c in columns + LabelColumns)
    ensures forall c :: c in columns ==> (row + Labels(row))[c] == row[c]
  {
    LabelsKeys(row);
    RowUnion(columns, LabelColumns, row, Labels(row));
  }

  lemma LabelsKeys(row: Row)
    ensures Labels(row).Keys == (set c | c in LabelColumns)
  {
  }

  /** The label cells of a labelled row. */
  lemma LabelCells(row: Row)
    ensures var out := row + Labels(row);
            out["MIMAG_Quality"] == TierCell(MimagTier(MetricsOf(row)))
            && out["GUNC_Status"] == GuncCell(Gunc(NumberIn(row, "clade_separation_score")))
  {
  }

  /** The outer joins of the CheckM2 table with the seven others. */
  function Merged(r: Reports): (t: Table)
    requires Valid(r) && !Raises(r)
    ensures WellFormed(t) && t.columns == BaseColumns + JoinedColumnNames
    ensures t.rows.Keys == BaseTable(r.checkm2).rows.Keys + AllKeys(Joined(r))
  {
    JoinedColumns(r);
    MergeAll(BaseTable(r.checkm2), Joined(r))
  }

  /** The output table, or `Failed` where the script raises. */
  function Summarise(r: Reports): (out: Result<Table>)
    requires Valid(r)
    ensures out.Failed? <==> Raises(r)
    ensures out.Ok? ==> WellFormed(out.value)
                        && out.value.columns == BaseColumns + JoinedColumnNames + LabelColumns
    ensures out.Ok? ==> out.value == Labelled(Merged(r))
  {
    if Raises(r) then Failed
    else
      AllColumnsDistinct();
      Ok(Labelled(Merged(r)))
  }

  // Properties of the merge.

  /** The MAG ids of the summary are exactly those of the CheckM2 report
      and of the seven joined tables; a placeholder table has the CheckM2
      ids. */
  lemma SummaryIds(r: Reports)
    requires Valid(r) && !Raises(r)
    ensures forall m :: m in Summarise(r).value.rows <==>
              || m in CheckM2Names(r.checkm2) || m in GuncNames(r.gunc) || m in StrainNames(r.checkm1)
              || m in GeneNames(r.geneCounts).value || m in RaNames(r.magRa)
              || (r.gtdb.Some? && (m in TaxonomyNames(r.gtdb.value) || m in DiffNames(r.diff)))
              || (r.quast.Some? && m in QuastNames(r.quast.value))
  {
    SummaryKeys(r);
    JoinedKeys(r);
    var classified := ClassificationTable(r).rows.Keys;
    var aligned := AlignmentTable(r).rows.Keys;
    var assembled := AssemblyTable(r).rows.Keys;
    forall m ensures m in Summarise(r).value.rows <==>
              || m in CheckM2Names(r.checkm2) || m in GuncNames(r.gunc) || m in StrainNames(r.checkm1)
              || m in GeneNames(r.geneCounts).value || m in RaNames(r.magRa)
              || (r.gtdb.Some? && (m in TaxonomyNames(r.gtdb.value) || m in DiffNames(r.diff)))
              || (r.quast.Some? && m in QuastNames(r.quast.value))
    {
      assert m in Summarise(r).value.rows <==>
        || m in Ids(CheckM2Names(r.checkm2)) || m in Ids(GuncNames(r.gunc)) || m in Ids(StrainNames(r.checkm1))
        || m in Ids(GeneNames(r.geneCounts).value) || m in Ids(RaNames(r.magRa))
        || m in classified || m in aligned || m in assembled;
    }
  }

  lemma SummaryKeys(r: Reports)
    requires Valid(r) && !Raises(r)
    ensures Summarise(r).value.rows.Keys == Ids(CheckM2Names(r.checkm2)) + AllKeys(Joined(r))
  {
  }

  lemma JoinedKeys(r: Reports)
    requires Valid(r) && !Raises(r)
    ensures AllKeys(Joined(r))
            == Ids(GuncNames(r.gunc)) + (Ids(StrainNames(r.checkm1)) + (Ids(GeneNames(r.geneCounts).value)
               + (Ids(RaNames(r.magRa)) + (ClassificationTable(r).rows.Keys
               + (AlignmentTable(r).rows.Keys + AssemblyTable(r).rows.Keys)))))
  {
    AllKeysOfSeven(Joined(r));
  }

  /** A cell of a joined table's column, for a MAG of the merge: the
      table's own cell, or NaN when the table has no row for the MAG. */
  lemma JoinedCell(r: Reports, k: nat, m: string, c: string)
    requires Valid(r) && !Raises(r)
    requires k < 7 && m in Merged(r).rows && c in Joined(r)[k].columns
    ensures c in Merged(r).rows[m] && Merged(r).rows[m][c] == CellOf(Joined(r)[k], m, c)
  {
    JoinedColumns(r);
    assert c in AllColumns(Joined(r));
    MergeAllCell(BaseTable(r.checkm2), Joined(r), k, m, c);
  }

  /** A CheckM2 cell of a MAG of the merge: its own value, or NaN for a
      MAG that only other reports name. */
  lemma CheckM2Cell(r: Reports, m: string, c: string)
    requires Valid(r) && !Raises(r)
    requires m in Merged(r).rows && c in BaseColumns
    ensures c in Merged(r).rows[m] && Merged(r).rows[m][c] == CellOf(BaseTable(r.checkm2), m, c)
  {
    JoinedColumns(r);
    MergeAllKeepsAcc(BaseTable(r.checkm2), Joined(r), m, c);
  }

  /** The `GUNC_Status` of a MAG of the summary, from its merged row. */
  lemma SummaryGunc(r: Reports, m: string)
    requires Valid(r) && !Raises(r) && m in Summarise(r).value.rows
    ensures m in Merged(r).rows
    ensures Summarise(r).value.rows[m]["GUNC_Status"]
            == GuncCell(Gunc(NumberIn(Merged(r).rows[m], "clade_separation_score")))
  {
    SummaryRow(r, m);
    LabelCells(Merged(r).rows[m]);
  }

  /** A placeholder row's cells are the placeholder values. */
  lemma PlaceholderCell(columns: seq<string>, names: seq<string>, cells: seq<Cell>, i: nat, j: nat)
    requires Distinct(columns) && Distinct(names) && |cells| == |columns|
    requires i < |names| && j < |columns|
    ensures CellOf(Placeholder(columns, names, cells), names[i], columns[j]) == cells[j]
  {
    var all := seq(|names|, i requires 0 <= i < |names| => cells);
    FromRecordsCell(columns, names, all, i, j);
  }

  /** A CheckM2 MAG's cell in a column of a placeholder table is the
      placeholder value. */
  lemma PlaceholderInSummary(r: Reports, k: nat, columns: seq<string>, cells: seq<Cell>, i: nat, j: nat)
    requires Valid(r) && !Raises(r) && k < 7 && i < |r.checkm2| && j < |columns|
    requires Distinct(columns) && |cells| == |columns|
    requires Joined(r)[k] == Placeholder(columns, CheckM2Names(r.checkm2), cells)
    ensures CellOf(Summarise(r).value, r.checkm2[i].name, columns[j]) == cells[j]
  {
    var names := CheckM2Names(r.checkm2);
    var m := names[i];
    SummaryKeys(r);
    assert m in Ids(names);
    SummaryRow(r, m);
    JoinedCell(r, k, m, columns[j]);
    PlaceholderCell(columns, names, cells, i, j);
    JoinedColumns(r);
    assert columns[j] in AllColumns(Joined(r));
    SummaryKeepsMerged(r, m, columns[j]);
  }

  /** With a zero-byte classification report, every CheckM2 MAG is
      classified `NA` and gets `bin_cov` `NA`, `ref_cov` 0 and `ANI` 0. */
  lemma NoClassificationPlaceholders(r: Reports, i: nat)
    requires Valid(r) && !Raises(r) && r.gtdb.None? && i < |r.checkm2|
    ensures var out, m := Summarise(r).value, r.checkm2[i].name;
            && CellOf(out, m, "classification") == Text("NA")
            && CellOf(out, m, "bin_cov") == Text("NA")
            && CellOf(out, m, "ref_cov") == Num(0.0)
            && CellOf(out, m, "ANI") == Num(0.0)
  {
    PlaceholderInSummary(r, 4, TaxonomyColumns, NaClassification, i, 0);
    PlaceholderInSummary(r, 5, DiffColumns, NaDiff, i, 0);
    PlaceholderInSummary(r, 5, DiffColumns, NaDiff, i, 1);
    PlaceholderInSummary(r, 5, DiffColumns, NaDiff, i, 2);
  }

  /** With a zero-byte QUAST table, every CheckM2 MAG gets
      `genome_fraction`, `NG50` and `NA50` 0 and `NA` in the other five
      metrics. */
  lemma NoQuastPlaceholders(r: Reports, i: nat, j: nat)
    requires Valid(r) && !Raises(r) && r.quast.None? && i < |r.checkm2| && j < |QuastColumns|
    ensures CellOf(Summarise(r).value, r.checkm2[i].name, QuastColumns[j])
            == if j < 3 then Num(0.0) else Text("NA")
  {
    assert Joined(r)[6] == Placeholder(QuastColumns, CheckM2Names(r.checkm2), NaQuast);
    PlaceholderInSummary(r, 6, QuastColumns, NaQuast, i, j);
    NaQuastCells(j);
  }

  lemma NaQuastCells(j: nat)
    requires j < |NaQuast|
    ensures NaQuast[j] == if j < 3 then Num(0.0) else Text("NA")
  {
  }

  /** With a zero-byte classification report the dnadiff report is not
      read: the summary is the same whatever it holds. */
  lemma DiffUnreadWithoutClassification(r: Reports, d: seq<DiffRow>)
    requires Valid(r) && r.gtdb.None?
    ensures Valid(r.(diff := d)) && Summarise(r.(diff := d)) == Summarise(r)
  {
    var r' := r.(diff := d);
    assert Raises(r') == Raises(r);
    if !Raises(r) {
      assert AlignmentTable(r') == AlignmentTable(r);
      assert Joined(r') == Joined(r);
      assert Merged(r') == Merged(r);
    }
  }

  /** A summary cell outside the two labels is the merged table's cell. */
  lemma SummaryKeepsMerged(r: Reports, m: string, c: string)
    requires Valid(r) && !Raises(r) && m in Summarise(r).value.rows
    requires c in BaseColumns + JoinedColumnNames
    ensures m in Merged(r).rows && Summarise(r).value.rows[m][c] == Merged(r).rows[m][c]
  {
  }

  /** A summary row is its merged row with the two labels added. */
  lemma SummaryRow(r: Reports, m: string)
    requires Valid(r) && !Raises(r) && m in Summarise(r).value.rows
    ensures m in Merged(r).rows
    ensures Summarise(r).value.rows[m] == Merged(r).rows[m] + Labels(Merged(r).rows[m])
  {
  }

  /** A row without a completeness gets no tier. */
  lemma NoTierWithoutCompleteness(row: Row)
    requires NumberIn(row, "completeness").None?
    ensures (row + Labels(row))["MIMAG_Quality"] == Null
  {
    TierNeedsBothScores(MetricsOf(row));
    LabelCells(row);
  }

  /** A MAG that the CheckM2 report does not name has NaN completeness and
      contamination, so it gets no tier. */
  lemma NoTierOutsideCheckM2(r: Reports, m: string)
    requires Valid(r) && !Raises(r)
    requires m in Summarise(r).value.rows && m !in CheckM2Names(r.checkm2)
    ensures Summarise(r).value.rows[m]["MIMAG_Quality"] == Null
  {
    SummaryRow(r, m);
    CheckM2Cell(r, m, "completeness");
    OutsideBaseTable(r.checkm2, m);
    NoTierWithoutCompleteness(Merged(r).rows[m]);
  }

  lemma OutsideBaseTable(rows: seq<CheckM2Row>, m: string)
    requires Distinct(CheckM2Names(rows)) && m !in CheckM2Names(rows)
    ensures m !in BaseTable(rows).rows
  {
  }

  /** The GUNC clade separation score of a GUNC row is that row's cell. */
  lemma GuncScoreCell(rows: seq<GuncRow>, i: nat)
    requires Distinct(GuncNames(rows)) && i < |rows|
    ensures CellOf(GuncTable(rows), rows[i].genome, "clade_separation_score")
            == NumCell(rows[i].cladeSeparationScore)
  {
    var names := GuncNames(rows);
    assert names[i] == rows[i].genome;
    FromRecordsCell(GuncColumns, names,
      seq(|rows|, i requires 0 <= i < |rows| =>
        [NumCell(rows[i].cladeSeparationScore), NumCell(rows[i].nEffectiveSurplusClades)]), i, 0);
  }

  /** The merged clade separation score of a MAG is the GUNC table's cell,
      NaN when GUNC did not report it. */
  lemma MergedGuncCell(r: Reports, m: string)
    requires Valid(r) && !Raises(r) && m in Merged(r).rows
    ensures "clade_separation_score" in Merged(r).rows[m]
    ensures Merged(r).rows[m]["clade_separation_score"]
            == CellOf(GuncTable(r.gunc), m, "clade_separation_score")
  {
    var ts := Joined(r);
    assert ts[0] == GuncTable(r.gunc) && "clade_separation_score" == ts[0].columns[0];
    JoinedCell(r, 0, m, "clade_separation_score");
  }

  /** A MAG that GUNC reports gets `GUNC_Status` `Pass` exactly when its
      clade separation score is a number below 0.45. */
  lemma GuncStatusOfReported(r: Reports, i: nat)
    requires Valid(r) && !Raises(r) && i < |r.gunc|
    ensures r.gunc[i].genome in Summarise(r).value.rows
    ensures Summarise(r).value.rows[r.gunc[i].genome]["GUNC_Status"] == Text("Pass")
            <==> r.gunc[i].cladeSeparationScore.Some? && r.gunc[i].cladeSeparationScore.value < GuncThreshold
  {
    var m := r.gunc[i].genome;
    SummaryIds(r);
    assert GuncNames(r.gunc)[i] == m;
    SummaryGunc(r, m);
    MergedGuncCell(r, m);
    GuncScoreCell(r.gunc, i);
    GuncOfCell(Merged(r).rows[m], "clade_separation_score");
  }

  /** A MAG of the summary that GUNC does not report fails. */
  lemma GuncStatusOfUnreported(r: Reports, m: string)
    requires Valid(r) && !Raises(r) && m in Summarise(r).value.rows
    requires forall i :: 0 <= i < |r.gunc| ==> r.gunc[i].genome != m
    ensures Summarise(r).value.rows[m]["GUNC_Status"] == Text("Fail")
  {
    SummaryGunc(r, m);
    MergedGuncCell(r, m);
    GuncTableAbsent(r.gunc, m);
    GuncOfCell(Merged(r).rows[m], "clade_separation_score");
  }

  /** A MAG no GUNC row names has no GUNC table row. */
  lemma GuncTableAbsent(rows: seq<GuncRow>, m: string)
    requires Distinct(GuncNames(rows))
    requires forall i :: 0 <= i < |rows| ==> rows[i].genome != m
    ensures CellOf(GuncTable(rows), m, "clade_separation_score") == Null
  {
    var names := GuncNames(rows);
    assert m !in names by {
      forall i | 0 <= i < |names| ensures names[i] != m {
        assert names[i] == rows[i].genome;
      }
    }
  }

  /** A row passes GUNC exactly when its score cell is a number below 0.45. */
  lemma GuncOfCell(row: Row, c: string)
    requires c in row
    ensures GuncCell(Gunc(NumberIn(row, c))) == Text("Pass") <==> row[c].Num? && row[c].x < GuncThreshold
    ensures GuncCell(Gunc(NumberIn(row, c))) != Text("Pass") ==> GuncCell(Gunc(NumberIn(row, c))) == Text("Fail")
  {
    GuncPassIff(NumberIn(row, c));
  }
}
