/** The dnadiff side of the workflow: the reference genome a GTDB-Tk
    classification points at (`pair_mag_refs`) and the one-line summary
    of a dnadiff report (`parse_dnadiff`). */
module Dnadiff {
  import opened Wrappers
  import opened Text
  import opened Numerals

  // `os.path.join`, POSIX flavour.

  /** One step of `posixpath.join`: an absolute component restarts the
      path; otherwise a `/` goes between, unless the path is empty or
      already ends in one. */
  function JoinStep(path: string, b: string): string {
    if |b| > 0 && b[0] == '/' then b
    else if |path| == 0 || path[|path| - 1] == '/' then path + b
    else path + "/" + b
  }

  /** `os.path.join(a, *ps)` */
  function PathJoin(a: string, ps: seq<string>): string
    decreases |ps|
  {
    if |ps| == 0 then a else PathJoin(JoinStep(a, ps[0]), ps[1..])
  }

  /** A path component that neither starts nor ends with `/`. */
  predicate Plain(c: string) {
    |c| > 0 && c[0] != '/' && c[|c| - 1] != '/'
  }

  /** Joining plain components onto a path that does not end in `/` puts
      exactly one `/` between neighbours. */
  lemma {:induction false} PathJoinPlain(a: string, ps: seq<string>)
    requires |a| > 0 && a[|a| - 1] != '/'
    requires forall k :: 0 <= k < |ps| ==> Plain(ps[k])
    ensures PathJoin(a, ps) == Join([a] + ps, "/")
    decreases |ps|
  {
    if |ps| > 0 {
      var a' := a + "/" + ps[0];
      assert Plain(ps[0]);
      assert a'[|a'| - 1] == ps[0][|ps[0]| - 1];
      assert JoinStep(a, ps[0]) == a';
      PathJoinPlain(a', ps[1..]);
      assert ([a] + ps)[1..] == ps;
      if |ps| == 1 {
        assert [a'] + ps[1..] == [a'];
      } else {
        assert ([a'] + ps[1..])[1..] == ps[1..];
      }
    }
  }

  // `pair_mag_refs`

  /** Python's `s[i:j]` for `0 <= i <= j`: clipped to the string. */
  function Slice(s: string, i: nat, j: nat): (r: string)
    requires i <= j
    ensures |r| <= j - i
  {
    var lo := if i < |s| then i else |s|;
    var hi := if j < |s| then j else |s|;
    s[lo..hi]
  }

  /** The reference genome file for a GTDB-Tk `closest_genome_reference`
      (`None` for NaN): the literal `None` when there is none, otherwise
      `<db>/skani/database/<p0>/<p1[0:3]>/<p1[3:6]>/<p1[6:9]>/<ref>_genomic.fna.gz`
      for the first two `_`-pieces `p0`, `p1`; a reference without `_`
      raises. */
  function RefPath(ref: Option<string>, db: string): (r: Result<string>)
    ensures r.Failed? <==> ref.Some? && ref.value != "nan" && '_' !in ref.value
    ensures ref.None? || ref.value == "nan" ==> r == Ok("None")
  {
    if ref.None? || ref.value == "nan" then Ok("None")
    else
      var parts := Split(ref.value, "_");
      if |parts| < 2 then
        assert '_' !in ref.value by {
          if '_' in ref.value { SplitAtLeastTwo(ref.value, '_'); }
        }
        Failed
      else
        assert '_' in ref.value by {
          if '_' !in ref.value { SplitWithoutSeparator(ref.value, "_"); }
        }
        var p1 := parts[1];
        Ok(PathJoin(db, ["skani/database", parts[0], Slice(p1, 0, 3), Slice(p1, 3, 6),
                         Slice(p1, 6, 9), ref.value + "_genomic.fna.gz"]))
  }

  /** The `.ref` file `pair_mag_refs` writes for one classified MAG: its
      path and its one line. */
  function RefFile(genome: string, ref: Option<string>, outDir: string, db: string)
    : (r: Result<(string, string)>)
    ensures r.Failed? <==> RefPath(ref, db).Failed?
    ensures r.Ok? ==> r.value.0 == PathJoin(outDir, [genome + ".ref"])
    ensures r.Ok? ==> r.value.1 == RefPath(ref, db).value + "\n"
  {
    match RefPath(ref, db)
    case Failed => Failed
    case Ok(p) => Ok((PathJoin(outDir, [genome + ".ref"]), p + "\n"))
  }

  /** The `.ref` file of a MAG sits directly in the output directory,
      named after the MAG. */
  lemma RefFileName(genome: string, ref: Option<string>, outDir: string, db: string)
    requires |outDir| > 0 && outDir[|outDir| - 1] != '/'
    requires |genome| > 0 && genome[0] != '/'
    requires RefFile(genome, ref, outDir, db).Ok?
    ensures RefFile(genome, ref, outDir, db).value.0 == outDir + "/" + genome + ".ref"
  {
    var file := genome + ".ref";
    assert file[0] == genome[0] && file[|file| - 1] == 'f';
    PathJoinPlain(outDir, [file]);
    assert [outDir] + [file] == [outDir, file];
    assert [outDir, file][1..] == [file];
  }

  /** For an accession `<p0>_<p1>` with a nine-character-or-longer `p1`
      (as in `GCF_000005845.2`) the path is the database's three-level
      directory split of the accession number. */
  lemma RefPathOfAccession(db: string, p0: string, p1: string)
    requires |db| > 0 && db[|db| - 1] != '/'
    requires |p0| > 0 && |p1| >= 9
    requires '_' !in p0 && '_' !in p1 && '/' !in p0 && '/' !in p1
    ensures RefPath(Some(p0 + "_" + p1), db)
         == Ok(Join([db, "skani/database", p0, p1[..3], p1[3..6], p1[6..9],
                     p0 + "_" + p1 + "_genomic.fna.gz"], "/"))
  {
    var acc := p0 + "_" + p1;
    AccessionPieces(p0, p1);
    var ps := ["skani/database", p0, p1[..3], p1[3..6], p1[6..9], acc + "_genomic.fna.gz"];
    AccessionPathPlain(p0, p1, ps);
    PathJoinPlain(db, ps);
  }

  lemma AccessionPieces(p0: string, p1: string)
    requires |p0| > 0 && '_' !in p0 && '_' !in p1
    ensures p0 + "_" + p1 != "nan"
    ensures |Split(p0 + "_" + p1, "_")| >= 2
    ensures Split(p0 + "_" + p1, "_")[0] == p0 && Split(p0 + "_" + p1, "_")[1] == p1
  {
    var acc := p0 + "_" + p1;
    SplitPrefix(p0, "_", p1);
    SplitWithoutSeparator(p1, "_");
    assert acc != "nan" by { assert acc[|p0|] == '_'; }
  }

  lemma AccessionPathPlain(p0: string, p1: string, ps: seq<string>)
    requires |p0| > 0 && |p1| >= 9 && '/' !in p0 && '/' !in p1
    requires ps == ["skani/database", p0, p1[..3], p1[3..6], p1[6..9], p0 + "_" + p1 + "_genomic.fna.gz"]
    ensures forall k :: 0 <= k < |ps| ==> Plain(ps[k])
  {
    assert p1[..3][0] == p1[0] && p1[..3][2] == p1[2];
    assert p1[3..6][0] == p1[3] && p1[3..6][2] == p1[5];
    assert p1[6..9][0] == p1[6] && p1[6..9][2] == p1[8];
    assert (p0 + "_" + p1 + "_genomic.fna.gz")[0] == p0[0];
  }

  // `parse_dnadiff`

  /** A summary line: query, reference, reference length, aligned share of
      the reference (%), query length, aligned share of the query (%),
      average identity. */
  datatype DiffSummary = DiffSummary(query: string, reference: string, refLen: int,
                                     refCov: real, queryLen: int, queryCov: real,
                                     identity: real)

  /** The summary written for a zero-byte report (a MAG without a species
      call): the report's file name without `.fa`, and zeros. */
  function EmptySummary(path: string): DiffSummary {
    DiffSummary(Replace(Basename(path), ".fa", ""), "None", 0, 0.0, 0, 0.0, 0.0)
  }

  /** The values read so far from the report; `None` for a variable not yet
      assigned. */
  datatype Readings = Readings(lenRef: Option<int>, lenQuery: Option<int>,
                               alignedRef: Option<string>, alignedQuery: Option<string>,
                               identity: Option<real>)

  const NoReadings: Readings := Readings(None, None, None, None, None)

  predicate HasTotals(line: string) { Contains(line, "TotalBases") }
  predicate HasAligned(line: string) { Contains(line, "AlignedBases") }
  predicate HasIdentity(line: string) { Contains(line, "AvgIdentity") }

  /** `s.split("(")[-1].split("%")[0]`: the percentage in `n(p%)`. */
  function Percent(col: string): string {
    var parts := Split(col, "(");
    Split(parts[|parts| - 1], "%")[0]
  }

  /** The percentage is read back from the `n(p%)` form dnadiff writes. */
  lemma PercentOf(n: string, p: string)
    requires '(' !in p && '%' !in p
    ensures Percent(n + "(" + p + "%)") == p
  {
    var tail := p + "%)";
    assert n + "(" + p + "%)" == n + "(" + tail;
    assert '(' !in tail;
    SplitLast(n, "(", tail);
    assert tail == p + "%" + ")";
    SplitPrefix(p, "%", ")");
  }

  /** `int(cols[1])`, `int(cols[2])` of a `TotalBases` line. */
  function Totals(line: string): Option<(int, int)> {
    var cols := Words(line);
    if |cols| < 3 then None
    else match (ParseInt(cols[1]), ParseInt(cols[2]))
      case (Some(x), Some(y)) => Some((x, y))
      case _ => None
  }

  /** The two percentages of an `AlignedBases` line, still as text. */
  function Aligned(line: string): Option<(string, string)> {
    var cols := Words(line);
    if |cols| < 3 then None else Some((Percent(cols[1]), Percent(cols[2])))
  }

  /** `float(cols[1])` of an `AvgIdentity` line. */
  function Identity(line: string): Option<real> {
    var cols := Words(line);
    if |cols| < 2 then None else ParseNumber(cols[1])
  }

  /** A line on which the loop raises (a missing column, a bad number). */
  predicate LineFails(line: string) {
    (HasTotals(line) && Totals(line).None?)
    || (HasAligned(line) && Aligned(line).None?)
    || (HasIdentity(line) && Identity(line).None?)
  }

  /** One pass of the loop body over a line. */
  function Step(st: Readings, line: string): (r: Result<Readings>)
    ensures r.Failed? <==> LineFails(line)
  {
    if LineFails(line) then Failed
    else
      var t := if HasTotals(line)
               then st.(lenRef := Some(Totals(line).value.0), lenQuery := Some(Totals(line).value.1))
               else st;
      var a := if HasAligned(line)
               then t.(alignedRef := Some(Aligned(line).value.0), alignedQuery := Some(Aligned(line).value.1))
               else t;
      Ok(if HasIdentity(line) then a.(identity := Identity(line)) else a)
  }

  /** The variables a line that does not raise sets, and the ones it
      leaves. */
  lemma StepFields(st: Readings, line: string)
    requires !LineFails(line)
    ensures Step(st, line).Ok?
    ensures var r := Step(st, line).value;
            && r.lenRef == (if HasTotals(line) then ParseInt(Words(line)[1]) else st.lenRef)
            && r.lenQuery == (if HasTotals(line) then ParseInt(Words(line)[2]) else st.lenQuery)
            && r.alignedRef == (if HasAligned(line) then Some(Percent(Words(line)[1])) else st.alignedRef)
            && r.alignedQuery == (if HasAligned(line) then Some(Percent(Words(line)[2])) else st.alignedQuery)
            && r.identity == (if HasIdentity(line) then ParseNumber(Words(line)[1]) else st.identity)
  {
  }

  /** The loop over the whole report, from no readings. */
  function Scan(lines: seq<string>): Result<Readings>
    decreases |lines|
  {
    if |lines| == 0 then Ok(NoReadings)
    else match Scan(lines[..|lines| - 1])
      case Failed => Failed
      case Ok(st) => Step(st, lines[|lines| - 1])
  }

  /** What the last matching line of each kind says: the reference
      definition of the variables after the loop. */
  function Latest(lines: seq<string>): Readings {
    var t := LastIndex(lines, HasTotals);
    var a := LastIndex(lines, HasAligned);
    var d := LastIndex(lines, HasIdentity);
    var totals := if t.None? then None else Totals(lines[t.value]);
    var aligned := if a.None? then None else Aligned(lines[a.value]);
    Readings(
      if totals.None? then None else Some(totals.value.0),
      if totals.None? then None else Some(totals.value.1),
      if aligned.None? then None else Some(aligned.value.0),
      if aligned.None? then None else Some(aligned.value.1),
      if d.None? then None else Identity(lines[d.value]))
  }

  /** The loop raises exactly when some line does, and otherwise leaves
      each variable as the last line of its kind set it. */
  lemma {:induction false} ScanIsLatest(lines: seq<string>)
    ensures Scan(lines).Ok? <==> forall k :: 0 <= k < |lines| ==> !LineFails(lines[k])
    ensures Scan(lines).Ok? ==> Scan(lines).value == Latest(lines)
    decreases |lines|
  {
    if |lines| > 0 {
      var init, x := lines[..|lines| - 1], lines[|lines| - 1];
      assert lines == init + [x];
      ScanIsLatest(init);
      LastIndexSnoc(init, x, HasTotals);
      LastIndexSnoc(init, x, HasAligned);
      LastIndexSnoc(init, x, HasIdentity);
      if Scan(init).Ok? && !LineFails(x) {
        LatestSnoc(init, x);
      }
    }
  }

  /** One more line in terms of the readings before it. */
  lemma LatestSnoc(init: seq<string>, x: string)
    requires forall k :: 0 <= k < |init| ==> !LineFails(init[k])
    requires !LineFails(x)
    ensures Step(Latest(init), x) == Ok(Latest(init + [x]))
  {
    var lines := init + [x];
    LastIndexSnoc(init, x, HasTotals);
    LastIndexSnoc(init, x, HasAligned);
    LastIndexSnoc(init, x, HasIdentity);
    var t := LastIndex(init, HasTotals);
    if t.Some? {
      assert lines[t.value] == init[t.value];
      assert !LineFails(init[t.value]);
    }
    var a := LastIndex(init, HasAligned);
    if a.Some? {
      assert lines[a.value] == init[a.value];
      assert !LineFails(init[a.value]);
    }
    var d := LastIndex(init, HasIdentity);
    if d.Some? {
      assert lines[d.value] == init[d.value];
    }
    assert lines[|init|] == x;
  }

  /** The variables after the loop become the summary; one never assigned
      or a percentage that is not a number raises. */
  function Finish(reference: string, query: string, st: Readings): Result<DiffSummary> {
    if st.lenRef.None? || st.lenQuery.None? || st.alignedRef.None?
       || st.alignedQuery.None? || st.identity.None? then Failed
    else match (ParseNumber(st.alignedRef.value), ParseNumber(st.alignedQuery.value))
      case (Some(ar), Some(aq)) =>
        Ok(DiffSummary(query, reference, st.lenRef.value, ar, st.lenQuery.value, aq,
                       st.identity.value))
      case _ => Failed
  }

  /** `parse_dnadiff` on a report's lines; a zero-byte report has none.
      The first two words of the first line are the reference and the
      query. */
  function Dnadiff(path: string, lines: seq<string>): Result<DiffSummary> {
    if |lines| == 0 then Ok(EmptySummary(path))
    else
      var first := Words(lines[0]);
      if |first| < 2 then Failed
      else match Scan(lines)
        case Failed => Failed
        case Ok(st) => Finish(first[0], first[1], st)
  }

  /** `parse_dnadiff`: reads the first line, then every line in turn. */
  method ParseDnadiff(path: string, lines: seq<string>) returns (r: Result<DiffSummary>)
    ensures r == Dnadiff(path, lines)
  {
    if |lines| == 0 {
      return Ok(EmptySummary(path));
    }
    var firstLine := Words(lines[0]);
    if |firstLine| < 2 {
      return Failed;
    }
    var reference, query := firstLine[0], firstLine[1];
    ScanIsLatest(lines);
    var lenRef: Option<int> := None;
    var lenQuery: Option<int> := None;
    var alignedRef: Option<string> := None;
    var alignedQuery: Option<string> := None;
    var identity: Option<real> := None;
    var i := 0;
    while i < |lines|
      invariant 0 <= i <= |lines|
      invariant Scan(lines[..i]) == Ok(Readings(lenRef, lenQuery, alignedRef, alignedQuery, identity))
    {
      var line := lines[i];
      assert lines[..i + 1][..i] == lines[..i];
      if LineFails(line) {
        return Failed;
      }
      StepFields(Readings(lenRef, lenQuery, alignedRef, alignedQuery, identity), line);
      if HasTotals(line) {
        var cols := Words(line);
        lenRef := ParseInt(cols[1]);
        lenQuery := ParseInt(cols[2]);
      }
      if HasAligned(line) {
        var cols := Words(line);
        alignedRef := Some(Percent(cols[1]));
        alignedQuery := Some(Percent(cols[2]));
      }
      if HasIdentity(line) {
        var cols := Words(line);
        identity := ParseNumber(cols[1]);
      }
      i := i + 1;
    }
    assert lines[..i] == lines;
    r := Finish(reference, query, Readings(lenRef, lenQuery, alignedRef, alignedQuery, identity));
  }

  /** A report that is not empty yields a summary only if it has a line of
      each kind; the summary names the first line's first word as the
      reference and its second as the query, and carries what the last
      such lines say. */
  lemma DnadiffReadsLastLines(path: string, lines: seq<string>)
    requires |lines| > 0 && Dnadiff(path, lines).Ok?
    ensures var first := Words(lines[0]);
            |first| >= 2 && Dnadiff(path, lines).value.reference == first[0]
            && Dnadiff(path, lines).value.query == first[1]
    ensures LastIndex(lines, HasTotals).Some?
    ensures LastIndex(lines, HasAligned).Some?
    ensures LastIndex(lines, HasIdentity).Some?
    ensures var s := Dnadiff(path, lines).value;
            var t := Totals(lines[LastIndex(lines, HasTotals).value]);
            t.Some? && s.refLen == t.value.0 && s.queryLen == t.value.1
    ensures var s := Dnadiff(path, lines).value;
            Identity(lines[LastIndex(lines, HasIdentity).value]) == Some(s.identity)
    ensures var s := Dnadiff(path, lines).value;
            var a := Aligned(lines[LastIndex(lines, HasAligned).value]);
            a.Some? && ParseNumber(a.value.0) == Some(s.refCov)
            && ParseNumber(a.value.1) == Some(s.queryCov)
  {
    ScanIsLatest(lines);
  }

  /** A non-empty report in which some line raises gives no summary. */
  lemma DnadiffFailsOnBadLine(path: string, lines: seq<string>, k: nat)
    requires k < |lines| && LineFails(lines[k])
    ensures Dnadiff(path, lines).Failed?
  {
    ScanIsLatest(lines);
  }

  /** The empty report of `<dir>/<name>.fa` is summarised under `name`
      when the first `.fa` in the file name is its extension. */
  lemma EmptySummaryOfFasta(dir: string, name: string)
    requires '/' !in name && IndexOf(name + ".fa", ".fa") == Some(|name|)
    ensures Dnadiff(dir + "/" + (name + ".fa"), [])
         == Ok(DiffSummary(name, "None", 0, 0.0, 0, 0.0, 0.0))
  {
    var file := name + ".fa";
    assert '/' !in file;
    BasenameIn(dir, file);
    assert Basename(dir + "/" + file) == file;
    forall j | 0 <= j < |name| ensures !StartsWith(file[j..], ".fa") {
    }
    ReplaceSuffix(name, ".fa", "");
    assert Replace(file, ".fa", "") == name;
  }
}
