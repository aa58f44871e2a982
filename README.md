# camp_mag-qc core, modelled in Dafny

This project models the data-handling core of the CAMP MAG quality-checking
workflow. It covers the helper functions of `workflow/utils.py` and the three
scripts that turn tool reports into per-MAG tables. Each core operation is a
Dafny function, or a method with loops, whose contract states what the
Python code computes. The lemmas then prove the properties that the
workflow relies on.

- `Bins` covers the bin-file helpers.
  - `check_format` tests for the CAMP bin naming `bin.<n>.fa`.
  - The prefix rule of `ingest_samples` numbers a sample's bins by their own
    numbers, or `bin.<j>` when any bin is not CAMP-named. The unbinned file
    is always dropped.
  - `add_bin_num` renumbers FASTA headers `>{bin}_{k}\t{name}`.
- `Commands` models `print_cmds`, the loop that turns a Snakemake dry-run
  log into a commented list of shell commands.
- `Dnadiff` has two parts.
  - `pair_mag_refs` builds the path of a GTDB reference genome from its
    accession.
  - `parse_dnadiff` reads a dnadiff report, or handles an empty one, into
    one summary record.
- `Quast` models `aggregate_quast`.
  - It collects the transposed QUAST reports and computes the four
    proportions.
  - Each MAG whose report is empty gets a row of zeros.
  - The output is empty when no report has content.
- `GeneCounts` models `summarize_gene_cts.py`: the Prokka summary counters
  and the 5S/16S/23S rRNA tally.
- `Abundance` models `calc_mag_ra.py`, the length-weighted mean coverage per
  bin and each bin's share of the total.
- `Summary`, `Tables` and `Quality` model `summarize_reports.py`.
  - MAG ids are normalised, and placeholder tables stand in for optional
    reports that are zero-byte files.
  - The CheckM2 table is outer-joined with seven others, in the script's
    order.
  - The `MIMAG_Quality` and `GUNC_Status` labels are added.
- `Text` and `Numerals` give the Python string and number built-ins these
  use a precise meaning:
  - `str.split`, `split()`, `strip`, `replace`, `startswith` and `in`;
  - `os.path.basename` and `os.path.join`;
  - `int()` and `float()`.
- `Tables` is the small part of pandas the merger uses: tables keyed by MAG
  id, built from records, and outer-joined.

Conventions:
- A Python exception becomes `Failed` (`Wrappers.Result`).
- A pandas NaN or an unbound local becomes `None` (`Wrappers.Option`).
- File contents are parameters: a file is its lines, or its data rows.
  A report read with a header row is `None` when it is a zero-byte file
  that the script tests for, and `[]` when it has a header and no rows.
  A file read without a header row is `[]` when it is a zero-byte file.

## Model

| member | source | states |
|---|---|---|
| Bins.CampNameIff | workflow/utils.py:33 | `bin.<d>.fa` matches the CAMP pattern exactly when `d` is a non-empty run of digits. The same holds with one trailing newline, which `$` accepts. |
| Bins.IsCampName | workflow/utils.py:33 | Defines the match of `^bin\.\d+\.fa$`: after dropping one trailing newline, `bin.`, at least one digit and `.fa`. `CampNameIff` characterises it. |
| Bins.CampNameOf | workflow/utils.py:33 | `bin.<d>.fa` with digits `d` has no `/`, matches the pattern, and its digits are `d`. |
| Bins.CampDigits | workflow/utils.py:33 | A matching name is `bin.` + non-empty digits + `.fa`, optionally followed by a newline. |
| Bins.CheckFormat | workflow/utils.py:32-38 | Returns true exactly when every file's basename matches the pattern. On false, some file does not match. |
| Bins.AllCamp | workflow/utils.py:32-38 | Defines what `check_format` accepts: every file's base name is a CAMP name. `CheckFormat` states it. |
| Bins.RemoveFirst | workflow/utils.py:50-51 | `list.remove`: a missing item leaves the list unchanged. A present item is removed once: one element shorter, the rest kept as a multiset. |
| Bins.RemoveFirstSplit | workflow/utils.py:50-51 | `list.remove` cuts out the first occurrence: removing `x` from `a + [x] + b` with `x` not in `a` gives `a + b`, with order kept. |
| Bins.RemoveFirstAt | workflow/utils.py:50-51 | Removing `x` whose first occurrence is at index `k` gives the items before `k` followed by those after it. |
| Bins.RemoveFirstOnce | workflow/utils.py:50-51 | An item listed at most once is absent after the removal. |
| Bins.UnbinnedDropped | workflow/utils.py:49-52 | The unbinned file never gets a prefix. There is one prefix per globbed file, one fewer when the unbinned file was globbed. |
| Bins.Prefixes | workflow/utils.py:52-54 | One prefix per bin file. |
| Bins.CampSecondToken | workflow/utils.py:54 | `split('.')[1]` of a CAMP name exists and is its digits. |
| Bins.CampPrefixes | workflow/utils.py:52-54 | When every bin is CAMP-named, the j-th prefix is the digits of the j-th file's basename. |
| Bins.CampPrefixOfFile | workflow/utils.py:54 | The file `<dir>/bin.<d>.fa` gets the prefix `d`. |
| Bins.FallbackPrefixesDistinct | workflow/utils.py:54 | When some bin is not CAMP-named, the j-th prefix is `bin.<j>`, and no two prefixes are equal. |
| Bins.ContigName | workflow/utils.py:133 | The contig name, with newlines stripped and `>` removed, holds no `>`. |
| Bins.RenumberedHeader | workflow/utils.py:134-135 | A renumbered header is again a header line and ends with a newline. |
| Bins.AddBinNum | workflow/utils.py:128-139 | The output has as many lines as the input. Every non-header line is copied. The header at line i becomes `>{bin}_{k}\t{name}`, where k counts the headers before it. |
| Bins.HeadersInSnoc | workflow/utils.py:132-137 | The contig counter advances by one on a header line and stays put otherwise. |
| Bins.HeadersIn | workflow/utils.py:130-137 | Defines the number of header lines, never more than the lines. `HeadersInSnoc` and `HeaderNumbersIncrease` state it. |
| Bins.HeaderNumbersIncrease | workflow/utils.py:132-137 | A later header gets a strictly larger contig number, so the numbers within a file are distinct. |
| Bins.HeadersKept | workflow/utils.py:128-139 | An output line is a header exactly when the input line is. |
| Commands.Filled | workflow/utils.py:101 | The filter keeps only non-empty lines and no more lines than the log has. A line value occurs in the result exactly when it is a non-empty line of the log. |
| Commands.FilledAppend | workflow/utils.py:101 | The filter works line by line: filtering a concatenation concatenates the filtered parts. So order and repeats are kept. |
| Commands.FilledLine | workflow/utils.py:101 | A single line is kept exactly when it is not empty. |
| Commands.PrintCmds | workflow/utils.py:98-116 | The text written equals `Emit` over the non-empty lines, starting with echo off. |
| Commands.Pass | workflow/utils.py:104-116 | One loop pass writes the rule comment, the wildcards comment and the echoed line, and returns the new echo flag and whether to break. |
| Commands.VisitLine | workflow/utils.py:104-116 | Defines one pass of the loop body on a line: the three `if`s on `rule`, `wildcards` and `resources`, the echo, and the `break` on `rule make_config`. The line lemmas state its cases. |
| Commands.Emit | workflow/utils.py:104-116 | Defines what the loop writes from a line on: the pass's text, then the rest unless the pass breaks. `EmitFirst` and the block lemmas state it. |
| Commands.EmitFirst | workflow/utils.py:104-116 | The output is the first line's writing, followed by the rest unless the loop broke. |
| Commands.MakeConfigStops | workflow/utils.py:115-116 | A `rule make_config` line without `resources` breaks the loop. |
| Commands.StopsAtMakeConfig | workflow/utils.py:115-116 | Nothing after the first such line is read. |
| Commands.RuleRemoved | workflow/utils.py:106 | Removing `rule ` and `:` from `rule <name>:` leaves the name. |
| Commands.RuleLine | workflow/utils.py:105-107 | A `rule <name>:` line writes `# <name>` and turns echo off. |
| Commands.ResourcesLine | workflow/utils.py:110-114 | A `resources` line writes an empty line and turns echo on. |
| Commands.EmitResources | workflow/utils.py:110-114 | After a `resources` line, the rest is emitted with echo on. |
| Commands.PlainLine | workflow/utils.py:113-114 | A plain line writes its stripped text when echo is on, and nothing otherwise. It keeps the flag and does not break. |
| Commands.EmitPlain | workflow/utils.py:113-114 | A plain first line contributes only its echo. |
| Commands.EchoBlock | workflow/utils.py:113-114 | With echo on, a block of plain lines is written line by line, stripped. |
| Commands.QuietBlock | workflow/utils.py:113 | With echo off, a block of plain lines writes nothing. |
| Commands.ResourcesBlock | workflow/utils.py:110-114 | The block after `resources` is echoed, stripped, before the rest is emitted. |
| Dnadiff.Slice | workflow/utils.py:153 | A Python slice `s[i:j]` is never longer than `j - i`. |
| Dnadiff.JoinStep | workflow/utils.py:153 | Defines one step of `os.path.join`: a component starting with `/` replaces the path; otherwise a `/` is added unless the path is empty or already ends in one. `PathJoinPlain` states it. |
| Dnadiff.PathJoin | workflow/utils.py:153 | Defines `os.path.join` as `JoinStep` over the components from left to right. `PathJoinPlain` and `RefFileName` state it. |
| Dnadiff.PathJoinPlain | workflow/utils.py:153 | `os.path.join` of plain components puts exactly one `/` between neighbours. |
| Dnadiff.RefPath | workflow/utils.py:148-153 | The path fails exactly when the reference is present, is not `nan`, and lacks the `_` that `parts[1]` needs. A missing (NaN) reference or the text `nan` gives `None`. |
| Dnadiff.AccessionPieces | workflow/utils.py:151-152 | An accession `p0_p1` is not `nan`, and splits at `_` into `p0` and `p1`. |
| Dnadiff.RefPathOfAccession | workflow/utils.py:151-153 | Accession `p0_p1` maps to `db/skani/database/p0/p1[0:3]/p1[3:6]/p1[6:9]/p0_p1_genomic.fna.gz`. |
| Dnadiff.RefFile | workflow/utils.py:148-155 | The `.ref` file fails exactly when the path does. It is `join(out_dir, <genome>.ref)` and holds the path and a newline. |
| Dnadiff.RefFileName | workflow/utils.py:154 | For a plain output directory and MAG name, the file is `<out_dir>/<genome>.ref`. |
| Dnadiff.PercentOf | workflow/utils.py:171-172 | The percentage in `n(p%)` is read back as `p`. |
| Dnadiff.Percent | workflow/utils.py:171-172 | Defines `s.split("(")[-1].split("%")[0]`: the text after the last `(` up to its first `%`. `PercentOf` states it. |
| Dnadiff.Step | workflow/utils.py:164-175 | One loop pass raises exactly when the line fails (`LineFails`): a `TotalBases` line with a missing column or one that is not an integer, or an `AvgIdentity` line with a missing column or one that is not a number. An `AlignedBases` line raises only when a column is missing. Its percentages stay text until `Finish` converts them on line 176. |
| Dnadiff.StepFields | workflow/utils.py:164-175 | A line updates only the variables of the markers it contains. |
| Dnadiff.Scan | workflow/utils.py:163-175 | Defines the loop over the report: `Step` on each line in order from no readings, stopping at the first raise. `ScanIsLatest` states it. |
| Dnadiff.Latest | workflow/utils.py:163-175 | Defines the reference readings: each variable read from the last line of its kind, or unset when there is none. `ScanIsLatest` and `LatestSnoc` tie it to `Scan`. |
| Dnadiff.Finish | workflow/utils.py:176 | Defines the output line's values: the readings become the summary with the query first. A variable never assigned, or a percentage that is not a number for `float()`, raises. `DnadiffReadsLastLines` states it. |
| Dnadiff.EmptySummary | workflow/utils.py:177-179 | Defines the summary of a zero-byte report: the file name without `.fa`, `None`, and zeros. `EmptySummaryOfFasta` states it. |
| Dnadiff.ScanIsLatest | workflow/utils.py:163-175 | The loop raises exactly when some line does. Otherwise each variable holds the value from the last line of its kind. |
| Dnadiff.LatestSnoc | workflow/utils.py:164-175 | One more line moves the last-line readings forward as the loop body does. |
| Dnadiff.ParseDnadiff | workflow/utils.py:158-181 | The method's summary equals `Dnadiff(path, lines)`. |
| Dnadiff.Dnadiff | workflow/utils.py:158-181 | Defines `parse_dnadiff` on a report's lines: the `None`-and-zeros summary for a zero-byte report; otherwise the first line's two words, then the scan. `DnadiffReadsLastLines`, `DnadiffFailsOnBadLine` and `EmptySummaryOfFasta` state its behaviour. |
| Dnadiff.DnadiffReadsLastLines | workflow/utils.py:160-176 | A successful summary names the first line's first word as the reference and its second as the query. It takes its lengths, coverages and identity from the last `TotalBases`, `AlignedBases` and `AvgIdentity` lines. |
| Dnadiff.DnadiffFailsOnBadLine | workflow/utils.py:164-175 | One malformed marker line anywhere makes the parse fail. |
| Dnadiff.EmptySummaryOfFasta | workflow/utils.py:177-179 | An empty report for `<dir>/<name>.fa` gives `name None 0 0 0 0 0`. |
| Quast.ParentOf | workflow/utils.py:191 | `split('/')[-2]` of `<dir>/<mag>/<file>` is `mag`. |
| Quast.ParentOfBareName | workflow/utils.py:191 | A path without `/` has no parent, so the script raises. |
| Quast.Parent | workflow/utils.py:191 | Defines `split('/')[-2]`: the second-to-last piece, failing with fewer than two pieces. `ParentOf` and `ParentOfBareName` state it. |
| Quast.Unclassified | workflow/utils.py:187-191 | Fails exactly when some empty report's path has no parent directory. Its list is pinned by `UnclassifiedAppend` and `UnclassifiedOne`. |
| Quast.UnclassifiedAppend | workflow/utils.py:187-191 | The MAG list of a concatenation succeeds exactly when both parts' lists do, and is then their concatenation. So the MAGs come file by file, in input order. |
| Quast.UnclassifiedOne | workflow/utils.py:188-191 | A report with content names no MAG. An empty report names its parent directory, or fails without one. |
| Quast.UnclassifiedSnoc | workflow/utils.py:187-191 | One more file extends the MAG list as one iteration of the loop does. |
| Quast.UnclassifiedFailsWith | workflow/utils.py:191 | An empty report at a bare file name makes the aggregation fail. |
| Quast.ReportsOf | workflow/utils.py:187-189 | Keeps only reports with content. The result is empty exactly when every report is empty. Its order is pinned by `ReportsOfAppend` and `ReportsOfOne`. |
| Quast.ReportsOfAppend | workflow/utils.py:187-189 | The reports of a concatenation are the reports of each part, in order. |
| Quast.ReportsOfOne | workflow/utils.py:188-189 | A single file is kept exactly when it is a report with content. |
| Quast.ReportOfFiles | workflow/utils.py:187-189 | Every kept report is one of the input files. |
| Quast.Columns | workflow/utils.py:193 | The concatenated frame has every column of every report. |
| Quast.ColumnSource | workflow/utils.py:193-195 | Every column of the concatenated frame comes from some report. |
| Quast.Cell | workflow/utils.py:193 | Defines a report's cell in the concatenated frame: its own value for a metric it has, NaN for one only another report has. `LineOfNumbers`, `LineOfRatios` and `ExampleLine` state it. |
| Quast.Float | workflow/utils.py:198-202 | `float()` of a cell is a number or NaN, never text. |
| Quast.RatioOfNumbers | workflow/utils.py:198-202 | The ratio of two numeric cells with a non-zero denominator is their quotient. |
| Quast.Ratio | workflow/utils.py:198-202 | Defines `float(num) / float(den)`: a text that is not a number or a zero denominator raises, and NaN spreads. `RatioOfNumbers`, `RatioWithinUnit` and `ZeroContigsLine` state it. |
| Quast.RatioWithinUnit | workflow/utils.py:198-202 | A part over a positive whole that it does not exceed gives a proportion in [0, 1]. |
| Quast.UnalignedWords | workflow/utils.py:200-201 | `N + M part` splits into `[N, "+", M, "part"]`. |
| Quast.UnalignedCount | workflow/utils.py:200-201 | Word 0 of the unaligned-contig cell is the unaligned count, and word 2 is the partly-unaligned count. |
| Quast.LineOf | workflow/utils.py:194-202 | A report's row carries that report's assembly name as `mag`. Its cells are given by `LineOfNumbers`. |
| Quast.LineOfNumbers | workflow/utils.py:194-202 | When the counts read as numbers and the contig count and total length are non-zero, the row copies `Genome fraction (%)`, `NG50`, `NA50` and `# misassemblies` as read. The four proportions are then misassembled contigs over contigs, misassembled length over total length, unaligned contigs (the first word of `N + M part`) over contigs, and unaligned length over total length. |
| Quast.LineOfRatios | workflow/utils.py:198-209 | When the five proportions compute, the row holds the four copied metrics and four of them; the partly-unaligned one is dropped. |
| Quast.ExampleLine | workflow/utils.py:194-209 | A report with 10 contigs, 2 of them misassembled, gives `prop_misassemb_ctgs` 0.2. Its other proportions are 0.25, 0.1 and 0.1. |
| Quast.ZeroContigsLine | workflow/utils.py:198 | A report with zero contigs raises a division by zero. |
| Quast.ZeroContigsFail | workflow/utils.py:198 | A single such report makes the aggregation fail. |
| Quast.SortReports | workflow/utils.py:187-191 | The first loop returns the reports with content and the MAGs of the empty ones, or fails as `Unclassified` does. |
| Quast.ColumnsOf | workflow/utils.py:193 | The loop collects exactly the columns of the concatenated frame. |
| Quast.ReportLines | workflow/utils.py:198-202 | Succeeds exactly when every report's proportions can be computed, and then returns one row per report, in order. |
| Quast.AppendZeroLines | workflow/utils.py:203-208 | Appends one zero row per unclassified MAG, in order. |
| Quast.ZeroLine | workflow/utils.py:204-207 | Defines the row of an unclassified MAG: its name and zero in every value column. `AppendZeroLines` and `AggregatedRows` state it. |
| Quast.AggregateQuast | workflow/utils.py:184-212 | The method's result equals `Aggregated(files)`. |
| Quast.Aggregated | workflow/utils.py:184-212 | Defines `aggregate_quast`: it fails when an empty report has no parent, a selected metric is missing or a row raises. Otherwise it gives no data when no report has content, and the report rows followed by the zero rows when some report does. `AggregatedRows`, `NoDataIff` and `MissingMetricFails` state it. |
| Quast.AggregatedRows | workflow/utils.py:192-209 | Row `i` of the table is the row computed from the `i`-th report with content, named after it. Then comes one zero row per empty report's MAG. Both lists are in input order (`ReportsOfAppend`, `UnclassifiedAppend`). |
| Quast.NoDataIff | workflow/utils.py:192-212 | The output file is empty exactly when every report is empty. |
| Quast.MissingMetricFails | workflow/utils.py:195 | A selected metric that no report has raises. |
| GeneCounts.SplitKeyValue | workflow/ext/scripts/summarize_gene_cts.py:20 | `<tag>: <v>` splits at `: ` into `[tag, v]`. |
| GeneCounts.ValueOfLine | workflow/ext/scripts/summarize_gene_cts.py:18-20 | A summary line `<tag>: <n>` survives `strip()` and reads back as `n`. |
| GeneCounts.KeyOf | workflow/ext/scripts/summarize_gene_cts.py:18-28 | Defines the `if`/`elif` chain on a stripped line: the first of `CDS:`, `gene:`, `mRNA:`, `tRNA:` and `rRNA:` it starts with, or no key. `ExampleKeys` states it. |
| GeneCounts.ValueOf | workflow/ext/scripts/summarize_gene_cts.py:18-28 | Defines `int(line.split(': ')[1])`, with no value where that raises. `ValueOfLine` states it. |
| GeneCounts.ParseLine | workflow/ext/scripts/summarize_gene_cts.py:18-28 | A line `<tag>: <n>` with a known key parses to that key and `n`. |
| GeneCounts.Set | workflow/ext/scripts/summarize_gene_cts.py:19-28 | `data[k] = v` sets counter `k` and leaves every other counter as it was. |
| GeneCounts.Entries | workflow/ext/scripts/summarize_gene_cts.py:16-18 | One parsed entry per line, in order. |
| GeneCounts.ReadableSnoc | workflow/ext/scripts/summarize_gene_cts.py:19-28 | The read succeeds through one more line exactly when it did before and a keyed line has an integer value. |
| GeneCounts.ReadStep | workflow/ext/scripts/summarize_gene_cts.py:17-28 | One more line changes only its own key's counter, to its value. An unkeyed line changes nothing. |
| GeneCounts.ReadSummary | workflow/ext/scripts/summarize_gene_cts.py:13-28 | The loop's counters, or its failure, equal `SummaryCounts(lines)`. |
| GeneCounts.SummaryCounts | workflow/ext/scripts/summarize_gene_cts.py:16-28 | Defines what reading the summary file yields: the counters of the parsed lines, or a failure when a keyed line has no integer. `LastLineWins`, `AbsentKeyIsZero` and `UnreadablePrefix` state it. |
| GeneCounts.UnreadablePrefix | workflow/ext/scripts/summarize_gene_cts.py:19-28 | Once a line raises, the whole read raises. |
| GeneCounts.LastLineWins | workflow/ext/scripts/summarize_gene_cts.py:19-28 | The last line with a given key decides that counter. |
| GeneCounts.AbsentKeyIsZero | workflow/ext/scripts/summarize_gene_cts.py:13 | A counter whose key no line names stays 0. |
| GeneCounts.CountSubunits | workflow/ext/scripts/summarize_gene_cts.py:34-42 | The loop's 5S, 16S and 23S counts equal the tallies of rRNA rows classified as each. |
| GeneCounts.SubunitOf | workflow/ext/scripts/summarize_gene_cts.py:37-42 | Defines the `if`/`elif` chain on a product: 5S before 16S before 23S, and nothing for a product naming none of them. |
| GeneCounts.SubunitsWithinRrnaRows | workflow/ext/scripts/summarize_gene_cts.py:34-42 | The three counts add up to at most the number of rRNA rows. The `elif` chain counts each row at most once. |
| GeneCounts.Tally | workflow/ext/scripts/summarize_gene_cts.py:34-42 | Defines how many rRNA rows the product chain assigns to a subunit. `CountSubunits` and `SubunitsWithinRrnaRows` state it. |
| GeneCounts.RrnaRows | workflow/ext/scripts/summarize_gene_cts.py:34-42 | Defines how many rows have `ftype == 'rRNA'`. `SubunitsWithinRrnaRows` states it. |
| GeneCounts.Summarize | workflow/ext/scripts/summarize_gene_cts.py:13-42 | The script's counters equal `GeneCountsOf(summary, features)`. |
| GeneCounts.GeneCountsOf | workflow/ext/scripts/summarize_gene_cts.py:13-42 | Defines the script's counters: the summary's counters, with the three subunit tallies of the table when the rRNA total is not 0. `ZeroRrnaIgnoresFeatures` and `Example` state it. |
| GeneCounts.ZeroRrnaIgnoresFeatures | workflow/ext/scripts/summarize_gene_cts.py:30 | With a zero rRNA total the feature table is not read, and the three subunit counts stay 0. |
| GeneCounts.Example | workflow/ext/scripts/summarize_gene_cts.py:13-42 | A worked summary and feature table give the expected eight counters. |
| Abundance.Binned | workflow/ext/scripts/calc_mag_ra.py:16 | Keeps exactly the rows whose bin is not `unbinned`. |
| Abundance.BinnedAppend | workflow/ext/scripts/calc_mag_ra.py:16 | The filter distributes over concatenation. |
| Abundance.SortedBins | workflow/ext/scripts/calc_mag_ra.py:22 | The groupby keys are strictly sorted and are exactly the bin names present. |
| Abundance.SumsSnoc | workflow/ext/scripts/calc_mag_ra.py:19-25 | One more contig adds its length and its coverage × length to its own bin only. |
| Abundance.SameBinSums | workflow/ext/scripts/calc_mag_ra.py:16-25 | Filtering out unbinned rows changes no named bin's sums. |
| Abundance.Means | workflow/ext/scripts/calc_mag_ra.py:28 | One mean per bin, each the bin's weighted coverage over its length. |
| Abundance.MeanCoverage | workflow/ext/scripts/calc_mag_ra.py:22-28 | Defines a bin's `avg_read_cov`: its coverage weight over its length, NaN when the length is 0. `Means`, `MeanWithinContigs` and `MeanNonNegative` state it. |
| Abundance.Shares | workflow/ext/scripts/calc_mag_ra.py:33 | One share per mean, each the mean over the total. |
| Abundance.Share | workflow/ext/scripts/calc_mag_ra.py:33 | One quotient gives a number exactly when the mean is a number and the total is not 0. The number times the total is then the mean. |
| Abundance.OneRowPerBin | workflow/ext/scripts/calc_mag_ra.py:16-34 | The output has one row per distinct bin name other than `unbinned`, in ascending order. |
| Abundance.RelativeAbundance | workflow/ext/scripts/calc_mag_ra.py:16-34 | Defines the `mag`/`avg_mag_ra` table: one row per sorted bin, with the share of its mean. `OneRowPerBin`, `RowValue` and `SumsToOne` state it. |
| Abundance.RowValue | workflow/ext/scripts/calc_mag_ra.py:28-33 | Each row's `avg_mag_ra` is its bin's mean coverage over the NaN-skipping sum of the means. |
| Abundance.UnbinnedIgnored | workflow/ext/scripts/calc_mag_ra.py:16 | An unbinned contig anywhere in the input does not change the output. |
| Abundance.AbundancesAreShares | workflow/ext/scripts/calc_mag_ra.py:33 | The output column is the list of shares of the means. |
| Abundance.SharesSum | workflow/ext/scripts/calc_mag_ra.py:33 | The sum of the shares is the sum of the means over the total. |
| Abundance.SkipNaSum | workflow/ext/scripts/calc_mag_ra.py:33 | Defines `avg_read_cov.sum()`, which skips NaN. `SharesSum`, `SumsToOne` and `SumAtLeastEach` state it. |
| Abundance.SumsToOne | workflow/ext/scripts/calc_mag_ra.py:33 | With a non-zero total, the relative abundances add up to 1. |
| Abundance.WeightBounds | workflow/ext/scripts/calc_mag_ra.py:19-25 | A bin whose contigs all have coverage in [lo, hi] has a weight between lo × length and hi × length. |
| Abundance.MeanWithinContigs | workflow/ext/scripts/calc_mag_ra.py:19-28 | A bin's mean coverage lies between the lowest and highest coverage of its contigs. |
| Abundance.MeanNonNegative | workflow/ext/scripts/calc_mag_ra.py:28 | With non-negative coverage, a mean is non-negative. |
| Abundance.SumNonNegative | workflow/ext/scripts/calc_mag_ra.py:33 | A NaN-skipping sum of non-negative values is non-negative. |
| Abundance.SumAtLeastEach | workflow/ext/scripts/calc_mag_ra.py:33 | Each non-negative value is at most their NaN-skipping sum. |
| Abundance.WithinUnitInterval | workflow/ext/scripts/calc_mag_ra.py:33 | With non-negative coverage, every relative abundance lies in [0, 1]. |
| Abundance.ZeroTotalAllZero | workflow/ext/scripts/calc_mag_ra.py:33 | With non-negative coverage and a zero total, every mean that is a number is 0. So each division by the total is 0/0, a NaN, and never an infinity. |
| Abundance.ZeroSumAllZero | workflow/ext/scripts/calc_mag_ra.py:33 | Non-negative values whose NaN-skipping sum is 0 are all 0. |
| Abundance.Example | workflow/ext/scripts/calc_mag_ra.py:16-34 | Bins with means 15 and 5 get abundances 0.75 and 0.25. |
| Quality.Select | workflow/ext/scripts/summarize_reports.py:70 | `np.select` gives no label exactly when no condition holds. Otherwise it gives the choice of the first condition that holds. |
| Quality.MimagTier | workflow/ext/scripts/summarize_reports.py:63-70 | Defines `MIMAG_Quality` as `np.select` over the five conditions with the choices Low, Medium, Medium, High and Near_Complete. `TierDefinedIff`, `TierMeaning` and `NearCompleteNeverAssigned` state it. |
| Quality.SelectFirstMatch | workflow/ext/scripts/summarize_reports.py:70 | The first true condition decides the label. |
| Quality.TierDefinedIff | workflow/ext/scripts/summarize_reports.py:63-70 | With both scores present, a tier is assigned exactly when contamination is below 10. |
| Quality.TierNeedsBothScores | workflow/ext/scripts/summarize_reports.py:63-70 | A NaN completeness or contamination gives no tier. |
| Quality.TierMeaning | workflow/ext/scripts/summarize_reports.py:63-70 | Low means completeness < 50 with contamination < 10. Medium means 50 ≤ completeness and contamination < 10, but not both completeness > 90 and contamination ≤ 5. High means completeness > 90 with contamination ≤ 5. |
| Quality.NearCompleteNeverAssigned | workflow/ext/scripts/summarize_reports.py:66-70 | `Near_Complete` is never assigned, because every MAG meeting its condition meets the earlier `High` condition. |
| Quality.HighWithoutGeneData | workflow/ext/scripts/summarize_reports.py:67-70 | A MAG with completeness 95 and contamination 3 is `High` even without tRNA or rRNA counts. |
| Quality.GuncPassIff | workflow/ext/scripts/summarize_reports.py:71 | `Pass` exactly for a present score below 0.45. A NaN score fails. |
| Quality.Gunc | workflow/ext/scripts/summarize_reports.py:71 | Defines `GUNC_Status`: `Pass` when the score is below 0.45, `Fail` otherwise. `GuncPassIff` states it. |
| Tables.FromRecords | workflow/ext/scripts/summarize_reports.py:48-51 | A table built from records has the given columns and one row per key. |
| Tables.FromRecordsCell | workflow/ext/scripts/summarize_reports.py:48-51 | The cell of record i in column j is the record's j-th value. |
| Tables.OuterJoin | workflow/ext/scripts/summarize_reports.py:61 | The keys are the union and the columns are concatenated. Each cell comes from its own table, or is NaN where that table lacks the MAG. |
| Tables.JoinCellLeft | workflow/ext/scripts/summarize_reports.py:61 | A left-table cell survives the join. |
| Tables.JoinCellRight | workflow/ext/scripts/summarize_reports.py:61 | A right-table cell survives the join. |
| Tables.MergeAll | workflow/ext/scripts/summarize_reports.py:60-61 | The fold of outer joins has all the columns in order, and the union of all keys. |
| Tables.MergeAllKeepsAcc | workflow/ext/scripts/summarize_reports.py:60-61 | A cell of the starting table is kept through every join. |
| Tables.MergeAllCell | workflow/ext/scripts/summarize_reports.py:60-61 | A cell of the k-th joined table is that table's cell, or NaN. |
| Summary.GeneMagOfBin | workflow/ext/scripts/summarize_reports.py:34 | `bin.X` becomes `X`. |
| Summary.GeneMag | workflow/ext/scripts/summarize_reports.py:34 | Defines the gene-count id: the second piece of the label split at `.`, failing when there is none. `GeneMagOfBin` and `GeneMagWithoutDot` state it. |
| Summary.GeneMagWithoutDot | workflow/ext/scripts/summarize_reports.py:34 | A label without a dot raises. |
| Summary.GeneNames | workflow/ext/scripts/summarize_reports.py:34 | The normalised labels exist exactly when every label has a dot. Each is the piece after the first dot. |
| Summary.DiffMagOfPath | workflow/ext/scripts/summarize_reports.py:44 | `/path/to/X.ext` becomes `X`. |
| Summary.DiffMag | workflow/ext/scripts/summarize_reports.py:44 | Defines the dnadiff id: the file name cut at its first dot. `DiffMagOfPath` states it. |
| Summary.BaseTable | workflow/ext/scripts/summarize_reports.py:10-16 | The CheckM2 table has the five base columns and one row per CheckM2 MAG. |
| Summary.StrainTable | workflow/ext/scripts/summarize_reports.py:18-22 | One `strain_het` row per CheckM MAG. |
| Summary.RaTable | workflow/ext/scripts/summarize_reports.py:24-25 | One `avg_mag_ra` row per MAG of the abundance table. |
| Summary.GuncTable | workflow/ext/scripts/summarize_reports.py:27-30 | One row of the two GUNC scores per GUNC genome. |
| Summary.GeneTable | workflow/ext/scripts/summarize_reports.py:32-34 | One row of six counts per normalised gene-count MAG. |
| Summary.TaxonomyTable | workflow/ext/scripts/summarize_reports.py:38-41 | One `classification` row per classified genome. |
| Summary.DiffTable | workflow/ext/scripts/summarize_reports.py:43-46 | One row of `bin_cov`, `ref_cov` and `ANI` per normalised dnadiff MAG. |
| Summary.QuastTable | workflow/ext/scripts/summarize_reports.py:54-55 | One row of the eight QUAST metrics per MAG. |
| Summary.Placeholder | workflow/ext/scripts/summarize_reports.py:48-58 | A placeholder table has one row per CheckM2 MAG. |
| Summary.PlaceholderCell | workflow/ext/scripts/summarize_reports.py:48-58 | Every placeholder row holds the placeholder values. |
| Summary.ClassificationTable | workflow/ext/scripts/summarize_reports.py:36-49 | With a zero-byte classification report, the table is keyed by the CheckM2 MAGs. Otherwise it is keyed by the classified genomes. |
| Summary.AlignmentTable | workflow/ext/scripts/summarize_reports.py:42-51 | With a zero-byte classification report, the table is keyed by the CheckM2 MAGs. Otherwise it is keyed by the dnadiff MAGs. |
| Summary.AssemblyTable | workflow/ext/scripts/summarize_reports.py:52-58 | With a zero-byte QUAST table, the table is keyed by the CheckM2 MAGs. Otherwise it is keyed by the QUAST MAGs. |
| Summary.Joined | workflow/ext/scripts/summarize_reports.py:60 | Seven well-formed tables whose columns come in the script's join order. |
| Summary.JoinedColumns | workflow/ext/scripts/summarize_reports.py:60-61 | The output columns are CheckM2's, then the joined tables' in order, then the two labels. No name repeats. |
| Summary.AllColumnsDistinct | workflow/ext/scripts/summarize_reports.py:11-70 | No two output columns share a name. |
| Summary.Merged | workflow/ext/scripts/summarize_reports.py:60-61 | The merged table has all the columns, and the union of the MAG ids of the eight tables. |
| Summary.Labelled | workflow/ext/scripts/summarize_reports.py:70-71 | Adds `MIMAG_Quality` and `GUNC_Status` and keeps every other cell and every MAG. |
| Summary.LabelCells | workflow/ext/scripts/summarize_reports.py:70-71 | The label cells are the tier and GUNC status of the row's own values. |
| Summary.TierCell | workflow/ext/scripts/summarize_reports.py:70 | Defines the `MIMAG_Quality` cell: the tier's name, or NaN for no tier. |
| Summary.Summarise | workflow/ext/scripts/summarize_reports.py:8-71 | Of the raises on lines 32-44, the model fails exactly in three cases: the gene-count file is empty, a gene-count label has no dot, or the dnadiff report is empty while the classification report is not. Otherwise the output is the labelled merge. The `log10` of line 73 is not modelled. |
| Summary.Raises | workflow/ext/scripts/summarize_reports.py:32-44 | Defines the modelled raise set: an empty gene-count file, a gene-count label without a dot, or an empty dnadiff report read next to a classification report. |
| Summary.EmptyHeaderlessReportRaises | workflow/ext/scripts/summarize_reports.py:32-43 | The two files read without a header row raise when they are empty: the gene-count file always, and the dnadiff report whenever the classification report is read. |
| Summary.SummaryIds | workflow/ext/scripts/summarize_reports.py:60-61 | The output MAGs are exactly those that some report read names. A placeholder table contributes the CheckM2 MAGs. |
| Summary.SummaryRow | workflow/ext/scripts/summarize_reports.py:70-71 | A summary row is its merged row plus the two labels. |
| Summary.SummaryKeepsMerged | workflow/ext/scripts/summarize_reports.py:70-71 | Every merged cell survives into the summary. |
| Summary.JoinedCell | workflow/ext/scripts/summarize_reports.py:60-61 | A joined table's cell for a merged MAG is the table's own cell, or NaN. |
| Summary.CheckM2Cell | workflow/ext/scripts/summarize_reports.py:60-61 | A CheckM2 cell of a merged MAG is its own value, or NaN. |
| Summary.PlaceholderInSummary | workflow/ext/scripts/summarize_reports.py:47-61 | A CheckM2 MAG's cell in a placeholder column holds the placeholder value. |
| Summary.NoClassificationPlaceholders | workflow/ext/scripts/summarize_reports.py:47-51 | With a zero-byte classification report, every CheckM2 MAG gets classification `NA`, `bin_cov` `NA`, `ref_cov` 0 and `ANI` 0. |
| Summary.NoQuastPlaceholders | workflow/ext/scripts/summarize_reports.py:56-58 | With a zero-byte QUAST table, every CheckM2 MAG gets 0 in the first three metrics and `NA` in the other five. |
| Summary.DiffUnreadWithoutClassification | workflow/ext/scripts/summarize_reports.py:36-51 | With a zero-byte classification report, the dnadiff report is never read: the output is the same whatever it holds. |
| Summary.NoTierWithoutCompleteness | workflow/ext/scripts/summarize_reports.py:63-70 | A row with NaN completeness gets no tier. |
| Summary.NoTierOutsideCheckM2 | workflow/ext/scripts/summarize_reports.py:60-70 | A MAG missing from the CheckM2 report gets no tier. |
| Summary.GuncScoreCell | workflow/ext/scripts/summarize_reports.py:27-30 | A GUNC genome's score cell is its reported score, or NaN. |
| Summary.MergedGuncCell | workflow/ext/scripts/summarize_reports.py:60-61 | The merged score of a MAG is the GUNC table's cell, or NaN. |
| Summary.GuncOfCell | workflow/ext/scripts/summarize_reports.py:71 | A row passes exactly when its score cell is a number below 0.45, and fails otherwise. |
| Summary.SummaryGunc | workflow/ext/scripts/summarize_reports.py:71 | A summary MAG's status comes from its merged score. |
| Summary.GuncStatusOfReported | workflow/ext/scripts/summarize_reports.py:71 | A MAG that GUNC reports is in the summary. It passes exactly when its score is present and below 0.45. |
| Summary.GuncStatusOfUnreported | workflow/ext/scripts/summarize_reports.py:71 | A MAG that GUNC does not report fails. |
| Numerals.ParseIntOfString | workflow/ext/scripts/summarize_gene_cts.py:20 | `int(str(i)) == i` for every integer. |
| Numerals.ParseInt | workflow/ext/scripts/summarize_gene_cts.py:20 | Defines `int(s)`: white space stripped, an optional sign, then decimal digits; anything else fails. `ParseIntOfString` states it. |
| Numerals.ParseNumberOfNat | workflow/utils.py:175 | `float(str(n)) == n` for every natural number. |
| Numerals.ParseNumber | workflow/utils.py:176 | Defines `float(s)` for plain decimal text: white space stripped, an optional sign, digits with an optional fraction. `ParseNumberOfNat` states it. |
| Text.JoinSplit | workflow/utils.py:152 | Joining the pieces of `s.split(sep)` with `sep` gives back `s`. |
| Text.Split | workflow/utils.py:152 | `s.split(sep)` gives at least one piece. `JoinSplit` and `SplitPiecesLack` pin the pieces. |
| Text.SplitPiecesLack | workflow/utils.py:152 | No piece of a split on a character holds that character. |
| Text.BasenameIn | workflow/utils.py:36 | `basename` of `<dir>/<name>` is `name`. |
| Text.Basename | workflow/utils.py:36 | `basename` holds no `/`. `BasenameIn` gives its value. |
| Text.StripUnchanged | workflow/ext/scripts/summarize_gene_cts.py:18 | A string with no white space at either end is its own `strip()`. |
| Text.Strip | workflow/ext/scripts/summarize_gene_cts.py:18 | Defines `strip()`: the ASCII white space dropped from both ends. `StripUnchanged` states it. |
| Text.ReplaceAbsent | workflow/utils.py:106 | `replace` of an absent pattern changes nothing. |
| Text.ReplaceSuffix | workflow/utils.py:178 | `replace` of a pattern that occurs only at the end rewrites just that end. |
| Text.Replace | workflow/utils.py:178 | Defines `replace` over left-to-right, non-overlapping occurrences. `ReplaceAbsent` and `ReplaceSuffix` state it. |
| Text.TwoWords | workflow/utils.py:166 | `split()` of two words separated by a space gives the two words. |
| Text.Words | workflow/utils.py:160 | `split()` gives only non-empty words. `TwoWords` and `UnalignedWords` give its value on the forms the workflow reads. |
| Text.LastIndexSnoc | workflow/utils.py:164-175 | The last index satisfying a predicate moves to a new final item exactly when the item satisfies it. |
| Text.BelowTransitive | workflow/ext/scripts/calc_mag_ra.py:22 | The string order used to sort the groupby keys is transitive. |
| Text.BelowTotal | workflow/ext/scripts/calc_mag_ra.py:22 | Of two different strings, one is below the other. |
| Text.BelowIrreflexive | workflow/ext/scripts/calc_mag_ra.py:22 | No string is below itself. |

## Left out

- File and process I/O is not modelled: reading and writing files, `glob`, `symlink`, `makedirs` and `os.system`. A file is given as its lines, and `getsize(f) != 0` becomes whether the lines, or the optional report, are present.
- The text formats are not modelled: `%i` and `%.2f` rendering, CSV and TSV writing, and pandas reading. A row is modelled as its values: `parse_dnadiff` gives a `DiffSummary` record, not the tab-separated line, and the zero-byte case gives the record of its name, `None` and zeros.
- `Overall_Score` (summarize_reports.py line 73) is left out: it uses `log10` and floating point, which the model replaces by exact reals.
- Floating-point arithmetic is exact real arithmetic, so rounding is not modelled. NaN is `None`. Infinity is not represented.
- Abundance.Share: a zero total gives `None`. With non-negative coverage this is pandas' 0/0, a NaN (`ZeroTotalAllZero`). With negative coverage, pandas can divide a non-zero mean by a zero total and give ±inf, which the model also writes as `None`.
- `float()` and `int()` read only plain decimal text: an optional sign, digits and an optional fraction. Exponents, `inf`, `nan` and underscores are not read.
- `Text.IsSpace` and `\d` cover only the ASCII white space and the digits 0-9.
- Summary.Summarise: assumes each report's MAG ids are unique (`Valid`). pandas `merge` on a duplicated key would give a cross product of rows.
- Summary.Summarise: the `log10(row[3])` of line 73 raises `ValueError` for a MAG whose fourth column, the CheckM2 N50, is 0 or negative. The model leaves line 73 out, so it returns a table there.
- Tables.OuterJoin: the row order of pandas' outer merge is not modelled, because a table is a map from MAG id to row.
- Quast.AggregateQuast: the `prop_part_unaln_ctgs` column is computed (and can make the script raise), but it is then dropped, so the model checks it and does not store it.
- Quast.AppendZeroLines: the integer zeros that `df.append` adds are modelled as the number 0.
- `get_conda_prefix`, `extract_from_gzip`, `get_bin_nums`, `Workflow_Dirs`, `cleanup_files` and `check_make` are not part of this model: they only read configuration or move files.
- From `ingest_samples`, only the choice of bin prefixes is modelled. The sample sheet, the directories and the links it creates are not.
- `summarize_gene_cts.py` lines 45-47 are not modelled; the model stops at the counters. Line 45 reads `args.mag`, but the parser on lines 50-53 defines only `f_summ`, `f_all` and `f_out`. So the script raises `AttributeError` at line 45, before line 47 could raise `NameError` for the undefined `f_out`.
- GeneCounts.SubunitOf: a product is always a string. In the script, a NaN `product` cell in an rRNA row makes `'5S' in product` on line 37 raise `TypeError`, which the model does not represent.
- Summary.TierCell: an untiered MAG gets a NaN `MIMAG_Quality` cell. The script's `np.select` on line 70 has string choices and `default = np.nan`. Older NumPy turns that default into the text `'nan'`, and newer NumPy raises `TypeError`. The model follows neither.
- Commands.PrintCmds: writes to a string instead of `commands.sh`.
- pandas dtype coercions (`astype(str)`, `astype(float)`, `astype(int)`) are not modelled. The ids are strings and the metrics numbers from the start.
