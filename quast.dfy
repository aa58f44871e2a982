/** `aggregate_quast`: the per-MAG QUAST reports folded into one table, with
    zero rows for the MAGs QUAST did not run on. */
module Quast {
  import opened Wrappers
  import opened Text
  import opened Numerals

  /** A QUAST report file: zero bytes (the MAG had no reference), or the
      assembly's name and its metric values as the report's text cells. */
  datatype QuastFile =
    | EmptyReport(path: string)
    | Report(assembly: string, metrics: map<string, string>)

  /** A cell of the aggregated frame: text as read, a float, or NaN (a
      metric the MAG's report lacks while another report has it). */
  datatype Value = Str(s: string) | Number(x: real) | NaN

  /** A row of the output table: `mag`, `genome_fraction`, `NG50`, `NA50`,
      `num_misassemb`, `prop_misassemb_ctgs`, `prop_misassemb_len`,
      `prop_unaln_ctgs` and `prop_unaln_len`. */
  datatype QuastLine = QuastLine(
    mag: string, genomeFraction: Value, ng50: Value, na50: Value, misassemblies: Value,
    propMisassembledContigs: Value, propMisassembledLength: Value,
    propUnalignedContigs: Value, propUnalignedLength: Value)

  /** The output file: zero bytes when no report had content, else a table. */
  datatype Aggregate = NoData | Rows(rows: seq<QuastLine>)

  /** The QUAST metrics the script selects; a metric no report has raises. */
  const Required: seq<string> := [
    "# contigs", "Total length", "Genome fraction (%)", "NG50", "NA50",
    "# misassemblies", "# misassembled contigs", "Misassembled contigs length",
    "# unaligned contigs", "Unaligned length"]

  // The MAGs without a report.

  /** `path.split('/')[-2]`: the directory holding the report, named after
      the MAG; a path without `/` raises. */
  function Parent(path: string): Result<string> {
    var parts := Split(path, "/");
    if |parts| < 2 then Failed else Ok(parts[|parts| - 2])
  }

  /** The report of `<dir>/<mag>/<file>` belongs to `mag`. */
  lemma ParentOf(dir: string, mag: string, file: string)
    requires '/' !in mag && '/' !in file
    ensures Parent(dir + "/" + mag + "/" + file) == Ok(mag)
  {
    SplitSnoc(dir + "/" + mag, "/", file);
    SplitSnoc(dir, "/", mag);
  }

  /** A bare file name has no parent to name the MAG by. */
  lemma ParentOfBareName(path: string)
    requires '/' !in path
    ensures Parent(path).Failed?
  {
    SplitWithoutSeparator(path, "/");
  }

  /** The MAGs of the empty reports, in order; fails if any has no parent. */
  function Unclassified(files: seq<QuastFile>): (r: Result<seq<string>>)
    ensures r.Failed? <==> exists i :: 0 <= i < |files| && files[i].EmptyReport? && Parent(files[i].path).Failed?
    decreases |files|
  {
    if |files| == 0 then Ok([])
    else
      var init, f := files[..|files| - 1], files[|files| - 1];
      assert forall i :: 0 <= i < |init| ==> init[i] == files[i];
      match Unclassified(init)
      case Failed => Failed
      case Ok(ms) =>
        if f.Report? then Ok(ms)
        else match Parent(f.path)
          case Failed => Failed
          case Ok(m) => Ok(ms + [m])
  }

  /** The reports with content, in order. */
  function ReportsOf(files: seq<QuastFile>): (reps: seq<QuastFile>)
    ensures forall i :: 0 <= i < |reps| ==> reps[i].Report?
    ensures |reps| == 0 <==> forall i :: 0 <= i < |files| ==> files[i].EmptyReport?
    decreases |files|
  {
    if |files| == 0 then []
    else
      var init, f := files[..|files| - 1], files[|files| - 1];
      assert forall i :: 0 <= i < |init| ==> init[i] == files[i];
      ReportsOf(init) + (if f.Report? then [f] else [])
  }

  // One report's row.

  /** The metrics some report has: the columns of the concatenated frame. */
  function Columns(reps: seq<QuastFile>): (cs: set<string>)
    requires forall i :: 0 <= i < |reps| ==> reps[i].Report?
    ensures forall i :: 0 <= i < |reps| ==> reps[i].metrics.Keys <= cs
    decreases |reps|
  {
    if |reps| == 0 then {}
    else
      var init := reps[..|reps| - 1];
      assert forall i :: 0 <= i < |init| ==> init[i] == reps[i];
      Columns(init) + reps[|reps| - 1].metrics.Keys
  }

  /** Every column comes from some report. */
  lemma {:induction false} ColumnSource(reps: seq<QuastFile>, c: string) returns (i: nat)
    requires forall i :: 0 <= i < |reps| ==> reps[i].Report?
    requires c in Columns(reps)
    ensures i < |reps| && c in reps[i].metrics
    decreases |reps|
  {
    var init := reps[..|reps| - 1];
    assert forall i :: 0 <= i < |init| ==> init[i] == reps[i];
    if c in reps[|reps| - 1].metrics {
      i := |reps| - 1;
    } else {
      i := ColumnSource(init, c);
    }
  }

  /** A report's cell in the concatenated frame. */
  function Cell(rep: QuastFile, name: string): Value
    requires rep.Report?
  {
    if name in rep.metrics then Str(rep.metrics[name]) else NaN
  }

  /** `float(v)`: text must be a number, NaN stays NaN. */
  function Float(v: Value): (r: Result<Value>)
    ensures r.Ok? ==> !r.value.Str?
  {
    match v
    case Str(s) => (match ParseNumber(s) case None => Failed case Some(x) => Ok(Number(x)))
    case Number(x) => Ok(v)
    case NaN => Ok(NaN)
  }

  /** `float(num) / float(den)`: a zero denominator raises, even under a
      NaN numerator; otherwise NaN spreads. */
  function Ratio(num: Value, den: Value): Result<Value> {
    match (Float(num), Float(den))
    case (Ok(a), Ok(b)) =>
      if b == Number(0.0) then Failed
      else if a.Number? && b.Number? then Ok(Number(a.x / b.x))
      else Ok(NaN)
    case _ => Failed
  }

  /** `v.split()[k]` of the `# unaligned contigs` cell, `N + M part`; a NaN
      cell has no `split` and raises. */
  function UnalignedPart(v: Value, k: nat): Value {
    if v.Str? && k < |Words(v.s)| then Str(Words(v.s)[k]) else NaN
  }

  /** `v.split()[k]` raises. */
  predicate UnalignedPartFails(v: Value, k: nat) {
    !v.Str? || k >= |Words(v.s)|
  }

  /** The row of one report; any proportion that raises makes the whole
      script raise, including the partly-unaligned one it then drops. */
  function LineOf(rep: QuastFile): (r: Result<QuastLine>)
    requires rep.Report?
    ensures r.Ok? ==> r.value.mag == rep.assembly
  {
    var contigs := Cell(rep, "# contigs");
    var size := Cell(rep, "Total length");
    var unaligned := Cell(rep, "# unaligned contigs");
    var p1 := Ratio(Cell(rep, "# misassembled contigs"), contigs);
    var p2 := Ratio(Cell(rep, "Misassembled contigs length"), size);
    var p3 := Ratio(UnalignedPart(unaligned, 0), contigs);
    var p4 := Ratio(UnalignedPart(unaligned, 2), contigs);
    var p5 := Ratio(Cell(rep, "Unaligned length"), size);
    if p1.Failed? || p2.Failed? || UnalignedPartFails(unaligned, 0) || p3.Failed?
       || UnalignedPartFails(unaligned, 2) || p4.Failed? || p5.Failed? then Failed
    else
      Ok(QuastLine(rep.assembly, Cell(rep, "Genome fraction (%)"), Cell(rep, "NG50"),
                   Cell(rep, "NA50"), Cell(rep, "# misassemblies"),
                   p1.value, p2.value, p3.value, p5.value))
  }

  /** No report's row raises. */
  predicate AllLinesFine(reps: seq<QuastFile>)
    requires forall i :: 0 <= i < |reps| ==> reps[i].Report?
  {
    forall i :: 0 <= i < |reps| ==> LineOf(reps[i]).Ok?
  }

  /** The reports' rows, in order. */
  function Lines(reps: seq<QuastFile>): (ls: seq<QuastLine>)
    requires forall i :: 0 <= i < |reps| ==> reps[i].Report?
    requires AllLinesFine(reps)
  {
    seq(|reps|, i requires 0 <= i < |reps| => LineOf(reps[i]).value)
  }

  /** The row of a MAG QUAST did not run on: zeros. */
  function ZeroLine(mag: string): QuastLine {
    var z := Number(0.0);
    QuastLine(mag, z, z, z, z, z, z, z, z)
  }

  /** The zero rows of the unclassified MAGs, in order. */
  function ZeroLines(unc: seq<string>): seq<QuastLine> {
    seq(|unc|, j requires 0 <= j < |unc| => ZeroLine(unc[j]))
  }

  /** `aggregate_quast` */
  function Aggregated(files: seq<QuastFile>): Result<Aggregate> {
    match Unclassified(files)
    case Failed => Failed
    case Ok(unc) =>
      var reps := ReportsOf(files);
      if |reps| == 0 then Ok(NoData)
      else if exists n :: n in Required && n !in Columns(reps) then Failed
      else if !AllLinesFine(reps) then Failed
      else Ok(Rows(Lines(reps) + ZeroLines(unc)))
  }

  /** The first loop of `aggregate_quast`: the reports with content, and
      the MAGs of the empty ones. */
  method SortReports(files: seq<QuastFile>) returns (r: Result<(seq<QuastFile>, seq<string>)>)
    ensures r.Failed? <==> Unclassified(files).Failed?
    ensures r.Ok? ==> r.value.0 == ReportsOf(files) && Unclassified(files) == Ok(r.value.1)
  {
    var reps: seq<QuastFile> := [];
    var unc: seq<string> := [];
    var i := 0;
    while i < |files|
      invariant 0 <= i <= |files|
      invariant reps == ReportsOf(files[..i])
      invariant Unclassified(files[..i]) == Ok(unc)
    {
      assert files[..i + 1][..i] == files[..i];
      var f := files[i];
      if f.Report? {
        reps := reps + [f];
      } else {
        var m := Parent(f.path);
        if m.Failed? {
          UnclassifiedFailsWith(files, i);
          return Failed;
        }
        unc := unc + [m.value];
      }
      i := i + 1;
    }
    assert files[..i] == files;
    return Ok((reps, unc));
  }

  /** The columns of the concatenated frame. */
  method ColumnsOf(reps: seq<QuastFile>) returns (columns: set<string>)
    requires forall i :: 0 <= i < |reps| ==> reps[i].Report?
    ensures columns == Columns(reps)
  {
    columns := {};
    var k := 0;
    while k < |reps|
      invariant 0 <= k <= |reps|
      invariant columns == Columns(reps[..k])
    {
      assert reps[..k + 1][..k] == reps[..k];
      columns := columns + reps[k].metrics.Keys;
      k := k + 1;
    }
    assert reps[..k] == reps;
  }

  /** The proportions, report by report. */
  method ReportLines(reps: seq<QuastFile>) returns (r: Result<seq<QuastLine>>)
    requires forall i :: 0 <= i < |reps| ==> reps[i].Report?
    ensures r.Ok? <==> AllLinesFine(reps)
    ensures r.Ok? ==> r.value == Lines(reps)
  {
    var rows: seq<QuastLine> := [];
    var k := 0;
    while k < |reps|
      invariant 0 <= k <= |reps| && |rows| == k
      invariant LinesSoFar(reps, rows)
    {
      var line := LineOf(reps[k]);
      if line.Failed? {
        return Failed;
      }
      LinesSoFarSnoc(reps, rows, line.value);
      rows := rows + [line.value];
      k := k + 1;
    }
    LinesComplete(reps, rows);
    return Ok(rows);
  }

  /** `aggregate_quast`: sorts the files into reports and unclassified MAGs,
      builds the report rows, then appends a zero row per unclassified MAG. */
  method AggregateQuast(files: seq<QuastFile>) returns (r: Result<Aggregate>)
    ensures r == Aggregated(files)
  {
    var sorted := SortReports(files);
    if sorted.Failed? {
      return Failed;
    }
    var (reps, unc) := sorted.value;
    if |reps| == 0 {
      return Ok(NoData);
    }
    var columns := ColumnsOf(reps);
    if exists n :: n in Required && n !in columns {
      return Failed;
    }
    var lines := ReportLines(reps);
    if lines.Failed? {
      return Failed;
    }
    var rows := AppendZeroLines(lines.value, unc);
    return Ok(Rows(rows));
  }

  /** The last loop of `aggregate_quast`: a zero row per unclassified MAG. */
  method AppendZeroLines(rows: seq<QuastLine>, unc: seq<string>) returns (out: seq<QuastLine>)
    ensures out == rows + ZeroLines(unc)
  {
    out := rows;
    var j := 0;
    while j < |unc|
      invariant 0 <= j <= |unc|
      invariant out == rows + ZeroLines(unc[..j])
    {
      ZeroLinesSnoc(unc, j);
      out := out + [ZeroLine(unc[j])];
      j := j + 1;
    }
    assert unc[..j] == unc;
  }

  /** The first rows built are the first reports' rows. */
  predicate LinesSoFar(reps: seq<QuastFile>, rows: seq<QuastLine>)
    requires forall i :: 0 <= i < |reps| ==> reps[i].Report?
  {
    |rows| <= |reps|
    && forall t :: 0 <= t < |rows| ==> LineOf(reps[t]) == Ok(rows[t])
  }

  lemma LinesSoFarSnoc(reps: seq<QuastFile>, rows: seq<QuastLine>, line: QuastLine)
    requires forall i :: 0 <= i < |reps| ==> reps[i].Report?
    requires LinesSoFar(reps, rows) && |rows| < |reps| && LineOf(reps[|rows|]) == Ok(line)
    ensures LinesSoFar(reps, rows + [line])
  {
    var next := rows + [line];
    forall t | 0 <= t < |next| ensures LineOf(reps[t]) == Ok(next[t]) {
      if t < |rows| {
        assert next[t] == rows[t];
      } else {
        assert next[t] == line;
      }
    }
  }

  lemma LinesComplete(reps: seq<QuastFile>, rows: seq<QuastLine>)
    requires forall i :: 0 <= i < |reps| ==> reps[i].Report?
    requires LinesSoFar(reps, rows) && |rows| == |reps|
    ensures AllLinesFine(reps) && rows == Lines(reps)
  {
  }

  lemma ZeroLinesSnoc(unc: seq<string>, j: nat)
    requires j < |unc|
    ensures ZeroLines(unc[..j + 1]) == ZeroLines(unc[..j]) + [ZeroLine(unc[j])]
  {
  }

  /** An unparented empty report at `i` makes the whole list fail. */
  lemma UnclassifiedFailsWith(files: seq<QuastFile>, i: nat)
    requires i < |files| && files[i].EmptyReport? && Parent(files[i].path).Failed?
    ensures Unclassified(files).Failed?
  {
  }

  // Properties.

  /** The table has one row per report, in order and under the report's
      assembly name, then one zero row per empty report, in order. */
  lemma AggregatedRows(files: seq<QuastFile>)
    requires Aggregated(files).Ok? && Aggregated(files).value.Rows?
    ensures var rows := Aggregated(files).value.rows;
            var reps := ReportsOf(files);
            var unc := Unclassified(files).value;
            && |rows| == |reps| + |unc|
            && (forall i :: 0 <= i < |reps| ==> LineOf(reps[i]) == Ok(rows[i]))
            && (forall i :: 0 <= i < |reps| ==> rows[i].mag == reps[i].assembly)
            && (forall j :: 0 <= j < |unc| ==> rows[|reps| + j] == ZeroLine(unc[j]))
  {
    var reps := ReportsOf(files);
    var unc := Unclassified(files).value;
    var rows := Aggregated(files).value.rows;
    assert rows == Lines(reps) + ZeroLines(unc);
    forall i | 0 <= i < |reps| ensures LineOf(reps[i]) == Ok(rows[i]) {
      assert rows[i] == LineOf(reps[i]).value;
    }
    forall j | 0 <= j < |unc| ensures rows[|reps| + j] == ZeroLine(unc[j]) {
      assert rows[|reps| + j] == ZeroLines(unc)[j];
    }
  }

  /** The reports are kept file by file, in order: the filter distributes
      over concatenation. */
  lemma {:induction false} ReportsOfAppend(a: seq<QuastFile>, b: seq<QuastFile>)
    ensures ReportsOf(a + b) == ReportsOf(a) + ReportsOf(b)
    decreases |b|
  {
    if |b| == 0 {
      assert a + b == a;
    } else {
      var init, f := b[..|b| - 1], b[|b| - 1];
      var ab := a + b;
      assert ab[..|ab| - 1] == a + init;
      assert ab[|ab| - 1] == f;
      ReportsOfAppend(a, init);
      var tail := if f.Report? then [f] else [];
      calc {
        ReportsOf(ab);
        ReportsOf(a + init) + tail;
        (ReportsOf(a) + ReportsOf(init)) + tail;
        ReportsOf(a) + (ReportsOf(init) + tail);
      }
    }
  }

  /** A single file is kept exactly when it is a report with content. */
  lemma ReportsOfOne(f: QuastFile)
    ensures ReportsOf([f]) == if f.Report? then [f] else []
  {
    assert [f][..0] == [];
  }

  /** The MAGs of the empty reports are collected file by file, in order,
      and one file without a parent fails the whole list. */
  lemma {:induction false} UnclassifiedAppend(a: seq<QuastFile>, b: seq<QuastFile>)
    ensures Unclassified(a + b).Ok? <==> Unclassified(a).Ok? && Unclassified(b).Ok?
    ensures Unclassified(a + b).Ok?
            ==> Unclassified(a + b).value == Unclassified(a).value + Unclassified(b).value
    decreases |b|
  {
    if |b| == 0 {
      assert a + b == a;
    } else {
      var init, f := b[..|b| - 1], b[|b| - 1];
      var ab := a + b;
      assert ab[..|ab| - 1] == a + init;
      assert ab[|ab| - 1] == f;
      UnclassifiedAppend(a, init);
      UnclassifiedSnoc(ab);
      UnclassifiedSnoc(b);
      if !f.Report? && Parent(f.path).Ok? && Unclassified(a + init).Ok? {
        var m := Parent(f.path).value;
        assert Unclassified(a).value + Unclassified(init).value + [m]
            == Unclassified(a).value + (Unclassified(init).value + [m]);
      }
    }
  }

  /** One more file extends the list of MAGs as the recursion does. */
  lemma UnclassifiedSnoc(files: seq<QuastFile>)
    requires |files| > 0
    ensures var u, f := Unclassified(files[..|files| - 1]), files[|files| - 1];
            Unclassified(files)
            == if u.Failed? then Failed
               else if f.Report? then u
               else if Parent(f.path).Failed? then Failed
               else Ok(u.value + [Parent(f.path).value])
  {
  }

  /** A report with content names no MAG; an empty report names the
      directory holding it, and fails without one. */
  lemma UnclassifiedOne(f: QuastFile)
    ensures f.Report? ==> Unclassified([f]) == Ok([])
    ensures f.EmptyReport? && Parent(f.path).Ok? ==> Unclassified([f]) == Ok([Parent(f.path).value])
    ensures f.EmptyReport? && Parent(f.path).Failed? ==> Unclassified([f]).Failed?
  {
    assert [f][..0] == [];
    if f.EmptyReport? && Parent(f.path).Ok? {
      var m := Parent(f.path).value;
      assert Unclassified([f][..0]) == Ok([]);
      assert [] + [m] == [m];
    }
  }

  /** A report whose counts are numbers, with a non-zero contig count and
      total length, gets its row: the four metrics copied as read, and the
      four proportions, each a count over the contig count or a length over
      the total length. */
  lemma LineOfNumbers(rep: QuastFile, contigs: real, size: real, misCtgs: real, misLen: real,
                      unaln: real, partUnaln: real, unalnLen: real)
    requires rep.Report?
    requires Float(Cell(rep, "# contigs")) == Ok(Number(contigs)) && contigs != 0.0
    requires Float(Cell(rep, "Total length")) == Ok(Number(size)) && size != 0.0
    requires Float(Cell(rep, "# misassembled contigs")) == Ok(Number(misCtgs))
    requires Float(Cell(rep, "Misassembled contigs length")) == Ok(Number(misLen))
    requires Float(UnalignedPart(Cell(rep, "# unaligned contigs"), 0)) == Ok(Number(unaln))
    requires Float(UnalignedPart(Cell(rep, "# unaligned contigs"), 2)) == Ok(Number(partUnaln))
    requires Float(Cell(rep, "Unaligned length")) == Ok(Number(unalnLen))
    ensures LineOf(rep) == Ok(QuastLine(rep.assembly, Cell(rep, "Genome fraction (%)"),
                                        Cell(rep, "NG50"), Cell(rep, "NA50"),
                                        Cell(rep, "# misassemblies"),
                                        Number(misCtgs / contigs), Number(misLen / size),
                                        Number(unaln / contigs), Number(unalnLen / size)))
  {
    LineOfRatios(rep, Number(misCtgs / contigs), Number(misLen / size),
                 Number(unaln / contigs), Number(partUnaln / contigs), Number(unalnLen / size));
  }

  /** The row of a report whose five proportions compute. */
  lemma LineOfRatios(rep: QuastFile, p1: Value, p2: Value, p3: Value, p4: Value, p5: Value)
    requires rep.Report?
    requires Ratio(Cell(rep, "# misassembled contigs"), Cell(rep, "# contigs")) == Ok(p1)
    requires Ratio(Cell(rep, "Misassembled contigs length"), Cell(rep, "Total length")) == Ok(p2)
    requires Ratio(UnalignedPart(Cell(rep, "# unaligned contigs"), 0), Cell(rep, "# contigs")) == Ok(p3)
    requires Ratio(UnalignedPart(Cell(rep, "# unaligned contigs"), 2), Cell(rep, "# contigs")) == Ok(p4)
    requires Ratio(Cell(rep, "Unaligned length"), Cell(rep, "Total length")) == Ok(p5)
    requires !UnalignedPartFails(Cell(rep, "# unaligned contigs"), 0)
    requires !UnalignedPartFails(Cell(rep, "# unaligned contigs"), 2)
    ensures LineOf(rep) == Ok(QuastLine(rep.assembly, Cell(rep, "Genome fraction (%)"),
                                        Cell(rep, "NG50"), Cell(rep, "NA50"),
                                        Cell(rep, "# misassemblies"), p1, p2, p3, p5))
  {
  }

  /** A small report: ten contigs, two of them misassembled. */
  const ExampleReport: QuastFile := Report("mag1", map[
    "# contigs" := "10", "Total length" := "1000",
    "Genome fraction (%)" := "95", "NG50" := "400", "NA50" := "300",
    "# misassemblies" := "3", "# misassembled contigs" := "2",
    "Misassembled contigs length" := "250",
    "# unaligned contigs" := "1 + 4 part", "Unaligned length" := "100"])

  /** Ten contigs of which two are misassembled give 0.2, and so on for
      the other proportions of the small report. */
  lemma ExampleLine()
    ensures LineOf(ExampleReport)
         == Ok(QuastLine("mag1", Str("95"), Str("400"), Str("300"), Str("3"),
                         Number(0.2), Number(0.25), Number(0.1), Number(0.1)))
  {
    ExampleCells();
    ExampleFloats();
    ExampleUnaligned();
    var rep := ExampleReport;
    assert Float(Cell(rep, "# contigs")) == Ok(Number(10.0));
    assert Float(Cell(rep, "Total length")) == Ok(Number(1000.0));
    assert Float(Cell(rep, "# misassembled contigs")) == Ok(Number(2.0));
    assert Float(Cell(rep, "Misassembled contigs length")) == Ok(Number(250.0));
    assert Float(UnalignedPart(Cell(rep, "# unaligned contigs"), 0)) == Ok(Number(1.0));
    assert Float(UnalignedPart(Cell(rep, "# unaligned contigs"), 2)) == Ok(Number(4.0));
    assert Float(Cell(rep, "Unaligned length")) == Ok(Number(100.0));
    LineOfNumbers(rep, 10.0, 1000.0, 2.0, 250.0, 1.0, 4.0, 100.0);
    assert 2.0 / 10.0 == 0.2 && 250.0 / 1000.0 == 0.25;
    assert 1.0 / 10.0 == 0.1 && 100.0 / 1000.0 == 0.1;
  }

  lemma ExampleUnaligned()
    ensures UnalignedPart(Str("1 + 4 part"), 0) == Str("1")
    ensures UnalignedPart(Str("1 + 4 part"), 2) == Str("4")
  {
    DigitWords();
    UnalignedCount("1", "4");
    assert "1" + " + " + "4" + " part" == "1 + 4 part";
  }

  lemma ExampleCells()
    ensures Cell(ExampleReport, "# contigs") == Str("10")
    ensures Cell(ExampleReport, "Total length") == Str("1000")
    ensures Cell(ExampleReport, "Genome fraction (%)") == Str("95")
    ensures Cell(ExampleReport, "NG50") == Str("400")
    ensures Cell(ExampleReport, "NA50") == Str("300")
    ensures Cell(ExampleReport, "# misassemblies") == Str("3")
    ensures Cell(ExampleReport, "# misassembled contigs") == Str("2")
    ensures Cell(ExampleReport, "Misassembled contigs length") == Str("250")
    ensures Cell(ExampleReport, "# unaligned contigs") == Str("1 + 4 part")
    ensures Cell(ExampleReport, "Unaligned length") == Str("100")
  {
  }

  lemma ExampleFloats()
    ensures Float(Str("10")) == Ok(Number(10.0)) && Float(Str("1000")) == Ok(Number(1000.0))
    ensures Float(Str("2")) == Ok(Number(2.0)) && Float(Str("250")) == Ok(Number(250.0))
    ensures Float(Str("100")) == Ok(Number(100.0))
    ensures Float(Str("1")) == Ok(Number(1.0)) && Float(Str("4")) == Ok(Number(4.0))
  {
    ExampleNumbers();
    ParseNumberOfNat(10);
    ParseNumberOfNat(1000);
    ParseNumberOfNat(2);
    ParseNumberOfNat(250);
    ParseNumberOfNat(100);
    ParseNumberOfNat(1);
    ParseNumberOfNat(4);
  }

  lemma ExampleNumbers()
    ensures NatToString(10) == "10" && NatToString(1000) == "1000" && NatToString(2) == "2"
    ensures NatToString(250) == "250" && NatToString(100) == "100"
    ensures NatToString(1) == "1" && NatToString(4) == "4"
  {
    assert NatToString(25) == "25" && NatToString(10) == "10";
  }

  lemma DigitWords()
    ensures forall i :: 0 <= i < |"1"| ==> !IsSpace("1"[i])
    ensures forall i :: 0 <= i < |"4"| ==> !IsSpace("4"[i])
  {
  }

  /** The output is empty exactly when no report has content (and every
      empty report names its MAG): unclassified MAGs alone give no rows. */
  lemma NoDataIff(files: seq<QuastFile>)
    requires Unclassified(files).Ok?
    ensures Aggregated(files) == Ok(NoData)
            <==> forall i :: 0 <= i < |files| ==> files[i].EmptyReport?
  {
    if |ReportsOf(files)| == 0 {
      assert Aggregated(files) == Ok(NoData);
    } else {
      assert Aggregated(files) != Ok(NoData);
    }
  }

  /** A selected metric that no report has raises. */
  lemma MissingMetricFails(files: seq<QuastFile>, n: string)
    requires n in Required && |ReportsOf(files)| > 0
    requires forall i :: 0 <= i < |files| && files[i].Report? ==> n !in files[i].metrics
    ensures Aggregated(files).Failed?
  {
    var reps := ReportsOf(files);
    if n in Columns(reps) {
      var i := ColumnSource(reps, n);
      ReportOfFiles(files, i);
    }
  }

  /** Every report with content is one of the files. */
  lemma {:induction false} ReportOfFiles(files: seq<QuastFile>, i: nat)
    requires i < |ReportsOf(files)|
    ensures exists k :: 0 <= k < |files| && files[k] == ReportsOf(files)[i]
    decreases |files|
  {
    var init := files[..|files| - 1];
    if i < |ReportsOf(init)| {
      ReportOfFiles(init, i);
      var k :| 0 <= k < |init| && init[k] == ReportsOf(init)[i];
      assert files[k] == init[k];
    } else {
      assert files[|files| - 1] == ReportsOf(files)[i];
    }
  }

  /** A report whose contig count is zero raises: the division by it
      comes before anything is written. */
  lemma ZeroContigsFail(files: seq<QuastFile>, i: nat)
    requires i < |ReportsOf(files)|
    requires Float(Cell(ReportsOf(files)[i], "# contigs")) == Ok(Number(0.0))
    ensures Aggregated(files).Failed?
  {
    var reps := ReportsOf(files);
    ZeroContigsLine(reps[i]);
    assert !AllLinesFine(reps);
  }

  /** A report with no contigs has no row: the first share divides by zero. */
  lemma ZeroContigsLine(rep: QuastFile)
    requires rep.Report? && Float(Cell(rep, "# contigs")) == Ok(Number(0.0))
    ensures LineOf(rep).Failed?
  {
    var p1 := Ratio(Cell(rep, "# misassembled contigs"), Cell(rep, "# contigs"));
    assert p1.Failed?;
  }

  /** The unaligned share reads the count before the `+` of `N + M part`. */
  lemma UnalignedCount(n: string, m: string)
    requires |n| > 0 && forall i :: 0 <= i < |n| ==> !IsSpace(n[i])
    requires |m| > 0 && forall i :: 0 <= i < |m| ==> !IsSpace(m[i])
    ensures UnalignedPart(Str(n + " + " + m + " part"), 0) == Str(n)
    ensures UnalignedPart(Str(n + " + " + m + " part"), 2) == Str(m)
  {
    UnalignedWords(n, m);
  }

  /** `"N + M part".split()` */
  lemma UnalignedWords(n: string, m: string)
    requires |n| > 0 && forall i :: 0 <= i < |n| ==> !IsSpace(n[i])
    requires |m| > 0 && forall i :: 0 <= i < |m| ==> !IsSpace(m[i])
    ensures Words(n + " + " + m + " part") == [n, "+", m, "part"]
  {
    var rest := m + " " + "part";
    var plus := "+" + " " + rest;
    PartWords(m);
    LiteralWords();
    WordsCons("+", rest);
    assert Words(plus) == ["+", m, "part"];
    WordsCons(n, plus);
    assert Words(n + " " + plus) == [n, "+", m, "part"];
    UnalignedText(n, m);
  }

  lemma UnalignedText(n: string, m: string)
    ensures n + " + " + m + " part" == n + " " + ("+" + " " + (m + " " + "part"))
  {
    assert " + " == " " + "+" + " ";
    assert " part" == " " + "part";
  }

  lemma PartWords(m: string)
    requires |m| > 0 && forall i :: 0 <= i < |m| ==> !IsSpace(m[i])
    ensures Words(m + " " + "part") == [m, "part"]
  {
    LiteralWords();
    TwoWords(m, "part");
  }

  /** The literal words of the `N + M part` form have no spaces. */
  lemma LiteralWords()
    ensures forall i :: 0 <= i < |"part"| ==> !IsSpace("part"[i])
    ensures forall i :: 0 <= i < |"+"| ==> !IsSpace("+"[i])
  {
    forall i | 0 <= i < |"part"| ensures !IsSpace("part"[i]) {
      assert "part"[i] in "part";
    }
  }

  /** A share of a whole, read as numbers `0 <= x <= y` with `y > 0`, lies
      in the unit interval. */
  lemma RatioWithinUnit(a: string, b: string, x: real, y: real)
    requires ParseNumber(a) == Some(x) && ParseNumber(b) == Some(y)
    requires 0.0 <= x <= y && y > 0.0
    ensures Ratio(Str(a), Str(b)).Ok?
    ensures var q := Ratio(Str(a), Str(b)).value; q.Number? && 0.0 <= q.x <= 1.0
  {
    RatioOfNumbers(a, b, x, y);
    UnitQuotient(x, y);
  }

  /** Two numbers, the second non-zero, divide. */
  lemma RatioOfNumbers(a: string, b: string, x: real, y: real)
    requires ParseNumber(a) == Some(x) && ParseNumber(b) == Some(y) && y != 0.0
    ensures Ratio(Str(a), Str(b)) == Ok(Number(x / y))
  {
    assert Float(Str(a)) == Ok(Number(x)) && Float(Str(b)) == Ok(Number(y));
  }
}
