/** The gene-count summariser: reads a Prokka summary (`key: value` lines)
    into eight counters, then, when the rRNA total is non-zero, classifies
    the products of the rRNA features of the extended annotation table into
    5S, 16S and 23S subunits. */
module GeneCounts {
  import opened Wrappers
  import opened Text
  import opened Numerals

  /** The eight counters, in the fixed output order CDS, genes, mRNA, tRNA,
      rRNA_total, rRNA_5s, rRNA_16s, rRNA_23s. */
  datatype Counts = Counts(
    cds: int, genes: int, mrna: int, trna: int, rrnaTotal: int,
    rrna5s: nat, rrna16s: nat, rrna23s: nat)

  /** Every counter starts at 0. */
  const Zero := Counts(0, 0, 0, 0, 0, 0, 0, 0)

  /** The summary keys that are read, each tied to one counter. */
  datatype Key = Cds | Gene | Mrna | Trna | Rrna

  /** The `if`/`elif` chain on a stripped summary line. */
  function KeyOf(line: string): Option<Key> {
    if StartsWith(line, "CDS:") then Some(Cds)
    else if StartsWith(line, "gene:") then Some(Gene)
    else if StartsWith(line, "mRNA:") then Some(Mrna)
    else if StartsWith(line, "tRNA:") then Some(Trna)
    else if StartsWith(line, "rRNA:") then Some(Rrna)
    else None
  }

  /** `int(line.split(': ')[1])`; `None` where that raises. */
  function ValueOf(line: string): Option<int> {
    var parts := Split(line, ": ");
    if |parts| < 2 then None else ParseInt(parts[1])
  }

  /** A summary line written as `<key>: <n>` reads back as the count `n`. */
  lemma ValueOfLine(tag: string, n: nat)
    requires |tag| > 0 && !IsSpace(tag[0]) && ':' !in tag
    ensures Strip(tag + ": " + NatToString(n)) == tag + ": " + NatToString(n)
    ensures ValueOf(tag + ": " + NatToString(n)) == Some(n)
  {
    var digits := NatToString(n);
    var line := tag + ": " + digits;
    assert line[0] == tag[0] && line[|line| - 1] == digits[|digits| - 1];
    assert !IsSpace(line[|line| - 1]) by { assert IsDigit(digits[|digits| - 1]); }
    StripUnchanged(line);
    assert ':' !in digits by {
      forall i | 0 <= i < |digits| ensures digits[i] != ':' { assert IsDigit(digits[i]); }
    }
    SplitKeyValue(tag, digits);
    ParseIntOfString(n);
  }

  /** `"<tag>: <v>".split(': ')` with no colon in `tag` or `v`. */
  lemma SplitKeyValue(tag: string, v: string)
    requires ':' !in tag && ':' !in v
    ensures Split(tag + ": " + v, ": ") == [tag, v]
  {
    var line := tag + ": " + v;
    forall j | 0 <= j < |tag| ensures !StartsWith(line[j..], ": ") {
      assert line[j..][0] == tag[j];
    }
    assert line[|tag|..|tag| + 2] == ": ";
    IndexOfAt(line, ": ", |tag|);
    SplitWithoutSeparator(v, ": ");
    assert line[..|tag|] == tag && line[|tag| + 2..] == v;
  }

  function Get(c: Counts, k: Key): int {
    match k
    case Cds => c.cds
    case Gene => c.genes
    case Mrna => c.mrna
    case Trna => c.trna
    case Rrna => c.rrnaTotal
  }

  /** `data[k] = v`: the counter of `k` becomes `v`, the others stay. */
  function Set(c: Counts, k: Key, v: int): (d: Counts)
    ensures Get(d, k) == v
    ensures forall k' :: k' != k ==> Get(d, k') == Get(c, k')
    ensures d.rrna5s == c.rrna5s && d.rrna16s == c.rrna16s && d.rrna23s == c.rrna23s
  {
    match k
    case Cds => c.(cds := v)
    case Gene => c.(genes := v)
    case Mrna => c.(mrna := v)
    case Trna => c.(trna := v)
    case Rrna => c.(rrnaTotal := v)
  }

  /** What one summary line says: the key its stripped text starts with,
      and the count after `': '` (`None` where reading it raises). */
  datatype Entry = Entry(key: Option<Key>, value: Option<int>)

  function Parse(line: string): Entry {
    var t := Strip(line);
    Entry(KeyOf(t), ValueOf(t))
  }

  function Entries(lines: seq<string>): (es: seq<Entry>)
    ensures |es| == |lines|
    ensures forall i :: 0 <= i < |lines| ==> es[i] == Parse(lines[i])
  {
    seq(|lines|, i requires 0 <= i < |lines| => Parse(lines[i]))
  }

  lemma EntriesSnoc(lines: seq<string>, i: nat)
    requires i < |lines|
    ensures Entries(lines[..i + 1]) == Entries(lines[..i]) + [Parse(lines[i])]
  {
  }

  lemma EntriesAppend(lines: seq<string>, line: string)
    ensures Entries(lines + [line]) == Entries(lines) + [Parse(line)]
  {
    assert (lines + [line])[..|lines|] == lines;
    EntriesSnoc(lines + [line], |lines|);
  }

  /** Every keyed line has a readable count (otherwise the script raises). */
  predicate Readable(es: seq<Entry>) {
    forall i :: 0 <= i < |es| && es[i].key.Some? ==> es[i].value.Some?
  }

  /** The counter of `k` after reading the entries: the count on the last
      line with key `k`, or 0 when no line has it. */
  function Field(es: seq<Entry>, k: Key): int
    requires Readable(es)
  {
    match LastIndex(es, (e: Entry) => e.key == Some(k))
    case None => 0
    case Some(i) => es[i].value.value
  }

  function FieldsOf(es: seq<Entry>): Counts
    requires Readable(es)
  {
    Counts(Field(es, Cds), Field(es, Gene), Field(es, Mrna), Field(es, Trna), Field(es, Rrna), 0, 0, 0)
  }

  /** What reading the summary file yields. */
  function SummaryCounts(lines: seq<string>): Result<Counts> {
    var es := Entries(lines);
    if Readable(es) then Ok(FieldsOf(es)) else Failed
  }

  lemma ReadableSnoc(es: seq<Entry>, e: Entry)
    ensures Readable(es + [e]) <==> Readable(es) && (e.key.Some? ==> e.value.Some?)
  {
    assert (es + [e])[|es|] == e;
    assert forall i :: 0 <= i < |es| ==> (es + [e])[i] == es[i];
  }

  /** Reading one more line overwrites the counter of that line's key, if
      it has one, and no other counter. */
  lemma ReadStep(es: seq<Entry>, e: Entry)
    requires Readable(es + [e])
    ensures Readable(es)
    ensures FieldsOf(es + [e]) == match e.key
                                  case None => FieldsOf(es)
                                  case Some(k) => Set(FieldsOf(es), k, e.value.value)
  {
    ReadableSnoc(es, e);
    var ext := es + [e];
    assert ext[|es|] == e;
    assert forall i :: 0 <= i < |es| ==> ext[i] == es[i];
    forall k: Key ensures Field(ext, k) == if e.key == Some(k) then e.value.value else Field(es, k) {
      LastIndexSnoc(es, e, (x: Entry) => x.key == Some(k));
    }
  }

  /** The line loop of the summariser: strips each line, matches its prefix
      and overwrites that key's counter. */
  method ReadSummary(lines: seq<string>) returns (r: Result<Counts>)
    ensures r == SummaryCounts(lines)
  {
    var data := Zero;
    var i := 0;
    while i < |lines|
      invariant 0 <= i <= |lines|
      invariant Readable(Entries(lines[..i]))
      invariant data == FieldsOf(Entries(lines[..i]))
    {
      var line := Strip(lines[i]);
      var key := KeyOf(line);
      ghost var es, e := Entries(lines[..i]), Parse(lines[i]);
      assert e.key == key;
      EntriesSnoc(lines, i);
      ReadableSnoc(es, e);
      if key.Some? {
        var v := ValueOf(line);
        assert e.value == v;
        if v.None? {
          assert Entries(lines)[..i + 1] == Entries(lines[..i + 1]);
          UnreadablePrefix(Entries(lines), i + 1);
          return Failed;
        }
        data := Set(data, key.value, v.value);
      }
      ReadStep(es, e);
      i := i + 1;
    }
    assert lines[..i] == lines;
    r := Ok(data);
  }

  lemma UnreadablePrefix(es: seq<Entry>, n: nat)
    requires n <= |es| && !Readable(es[..n])
    ensures !Readable(es)
  {
    var i :| 0 <= i < n && es[..n][i].key.Some? && es[..n][i].value.None?;
    assert es[i] == es[..n][i];
  }

  /** A row of the extended annotation table (its `ftype` and `product`). */
  datatype Feature = Feature(ftype: string, product: string)

  datatype Subunit = S5 | S16 | S23

  /** The `if`/`elif` chain on a product string: 5S before 16S before 23S;
      a product naming none of them is not counted. */
  function SubunitOf(product: string): Option<Subunit> {
    if Contains(product, "5S") then Some(S5)
    else if Contains(product, "16S") then Some(S16)
    else if Contains(product, "23S") then Some(S23)
    else None
  }

  predicate IsRrna(f: Feature) {
    f.ftype == "rRNA"
  }

  predicate CountsAs(f: Feature, u: Subunit) {
    IsRrna(f) && SubunitOf(f.product) == Some(u)
  }

  /** How many rRNA rows are classified as subunit `u`. */
  function Tally(fs: seq<Feature>, u: Subunit): nat
    decreases |fs|
  {
    if fs == [] then 0
    else Tally(fs[..|fs| - 1], u) + (if CountsAs(fs[|fs| - 1], u) then 1 else 0)
  }

  /** How many rows have `ftype == 'rRNA'`. */
  function RrnaRows(fs: seq<Feature>): nat
    decreases |fs|
  {
    if fs == [] then 0
    else RrnaRows(fs[..|fs| - 1]) + (if IsRrna(fs[|fs| - 1]) then 1 else 0)
  }

  /** The product loop: each rRNA row adds one to at most one subunit. */
  method CountSubunits(features: seq<Feature>) returns (n5: nat, n16: nat, n23: nat)
    ensures n5 == Tally(features, S5) && n16 == Tally(features, S16) && n23 == Tally(features, S23)
  {
    n5, n16, n23 := 0, 0, 0;
    var i := 0;
    while i < |features|
      invariant 0 <= i <= |features|
      invariant n5 == Tally(features[..i], S5)
      invariant n16 == Tally(features[..i], S16)
      invariant n23 == Tally(features[..i], S23)
    {
      assert features[..i + 1][..i] == features[..i];
      var f := features[i];
      if IsRrna(f) {
        var product := f.product;
        if Contains(product, "5S") {
          n5 := n5 + 1;
        } else if Contains(product, "16S") {
          n16 := n16 + 1;
        } else if Contains(product, "23S") {
          n23 := n23 + 1;
        }
      }
      i := i + 1;
    }
    assert features[..i] == features;
  }

  /** The subunit counts never exceed the number of rRNA rows. */
  lemma {:induction false} SubunitsWithinRrnaRows(fs: seq<Feature>)
    ensures Tally(fs, S5) + Tally(fs, S16) + Tally(fs, S23) <= RrnaRows(fs)
    decreases |fs|
  {
    if fs != [] {
      SubunitsWithinRrnaRows(fs[..|fs| - 1]);
    }
  }

  /** The whole summariser on its two inputs: the summary lines, and the
      rows of the extended table (consulted only for a non-zero rRNA total). */
  function GeneCountsOf(summary: seq<string>, features: seq<Feature>): Result<Counts> {
    match SummaryCounts(summary)
    case Failed => Failed
    case Ok(c) =>
      if c.rrnaTotal != 0 then
        Ok(c.(rrna5s := Tally(features, S5), rrna16s := Tally(features, S16),
              rrna23s := Tally(features, S23)))
      else Ok(c)
  }

  method Summarize(summary: seq<string>, features: seq<Feature>) returns (r: Result<Counts>)
    ensures r == GeneCountsOf(summary, features)
  {
    r := ReadSummary(summary);
    if r.Ok? && r.value.rrnaTotal != 0 {
      var n5, n16, n23 := CountSubunits(features);
      r := Ok(r.value.(rrna5s := n5, rrna16s := n16, rrna23s := n23));
    }
  }

  /** With a zero rRNA total the extended table is not read: the subunit
      counters stay 0 whatever the table holds. */
  lemma ZeroRrnaIgnoresFeatures(summary: seq<string>, fs1: seq<Feature>, fs2: seq<Feature>)
    requires SummaryCounts(summary).Ok? && SummaryCounts(summary).value.rrnaTotal == 0
    ensures GeneCountsOf(summary, fs1) == GeneCountsOf(summary, fs2)
    ensures var c := GeneCountsOf(summary, fs1).value;
            c.rrna5s == 0 && c.rrna16s == 0 && c.rrna23s == 0
  {
  }

  /** The last line with a key decides its counter: appending a keyed line
      sets that counter to the line's count and leaves the others alone. */
  lemma LastLineWins(lines: seq<string>, line: string)
    requires SummaryCounts(lines + [line]).Ok?
    requires Parse(line).key.Some?
    ensures SummaryCounts(lines).Ok?
    ensures var k := Parse(line).key.value;
            SummaryCounts(lines + [line]).value
              == Set(SummaryCounts(lines).value, k, Parse(line).value.value)
  {
    EntriesAppend(lines, line);
    ReadStep(Entries(lines), Parse(line));
  }

  /** A key no line carries keeps its initial 0. */
  lemma {:induction false} AbsentKeyIsZero(lines: seq<string>, k: Key)
    requires SummaryCounts(lines).Ok?
    requires forall i :: 0 <= i < |lines| ==> Parse(lines[i]).key != Some(k)
    ensures Get(SummaryCounts(lines).value, k) == 0
  {
    var es := Entries(lines);
    var last := LastIndex(es, (e: Entry) => e.key == Some(k));
    assert last.None?;
  }

  /** A stripped line `<tag>: <n>` with a recognised tag is the entry for
      that key with count `n`. */
  lemma ParseLine(line: string, tag: string, n: nat, k: Key)
    requires |tag| > 0 && !IsSpace(tag[0]) && ':' !in tag
    requires line == tag + ": " + NatToString(n) && KeyOf(line) == Some(k)
    ensures Parse(line) == Entry(Some(k), Some(n))
  {
    ValueOfLine(tag, n);
  }

  // The worked example: a summary naming CDS, tRNA and rRNA only, and three
  // rRNA rows with products 5S, 16S and 16S.

  lemma ExampleNumerals()
    ensures NatToString(3) == "3" && NatToString(20) == "20" && NatToString(120) == "120"
  {
    assert NatToString(1) == "1" && NatToString(2) == "2" && NatToString(12) == "12";
  }

  lemma ExampleKeys()
    ensures KeyOf("CDS: 120") == Some(Cds)
  {
  }

  lemma ExampleTrnaKey()
    ensures KeyOf("tRNA: 20") == Some(Trna)
  {
    var t := "tRNA: 20";
    assert t[..4][0] != "CDS:"[0] && t[..5][0] != "gene:"[0] && t[..5][0] != "mRNA:"[0];
    assert t[..5] == "tRNA:";
  }

  lemma ExampleRrnaKey()
    ensures KeyOf("rRNA: 3") == Some(Rrna)
  {
    var t := "rRNA: 3";
    assert t[..4][0] != "CDS:"[0] && t[..5][0] != "gene:"[0] && t[..5][0] != "mRNA:"[0];
    assert t[..5][0] != "tRNA:"[0] && t[..5] == "rRNA:";
  }

  lemma ExampleCdsLine()
    ensures Parse("CDS: 120") == Entry(Some(Cds), Some(120))
  {
    ExampleNumerals();
    ExampleKeys();
    assert "CDS" + ": " + NatToString(120) == "CDS: 120";
    ParseLine("CDS: 120", "CDS", 120, Cds);
  }

  lemma ExampleTrnaLine()
    ensures Parse("tRNA: 20") == Entry(Some(Trna), Some(20))
  {
    ExampleNumerals();
    ExampleTrnaKey();
    assert "tRNA" + ": " + NatToString(20) == "tRNA: 20";
    ParseLine("tRNA: 20", "tRNA", 20, Trna);
  }

  lemma ExampleRrnaLine()
    ensures Parse("rRNA: 3") == Entry(Some(Rrna), Some(3))
  {
    ExampleNumerals();
    ExampleRrnaKey();
    assert "rRNA" + ": " + NatToString(3) == "rRNA: 3";
    ParseLine("rRNA: 3", "rRNA", 3, Rrna);
  }

  lemma EntriesOfThree(l1: string, l2: string, l3: string)
    ensures Entries([l1, l2, l3]) == [Parse(l1), Parse(l2), Parse(l3)]
  {
    var ls := [l1, l2, l3];
    var es := Entries(ls);
    assert es[0] == Parse(ls[0]) && es[1] == Parse(ls[1]) && es[2] == Parse(ls[2]);
    ThreeItems(es);
  }

  lemma ThreeItems<T>(xs: seq<T>)
    requires |xs| == 3
    ensures xs == [xs[0], xs[1], xs[2]]
  {
  }

  /** Reading the three entries sets CDS, tRNA and rRNA_total, each once,
      and leaves genes and mRNA at 0. */
  lemma ExampleEntries(e1: Entry, e2: Entry, e3: Entry)
    requires e1 == Entry(Some(Cds), Some(120))
    requires e2 == Entry(Some(Trna), Some(20))
    requires e3 == Entry(Some(Rrna), Some(3))
    ensures Readable([e1, e2, e3]) && FieldsOf([e1, e2, e3]) == Counts(120, 0, 0, 20, 3, 0, 0, 0)
  {
    assert [e1] == [] + [e1];
    ReadStep([], e1);
    ReadStep([e1], e2);
    assert [e1] + [e2] == [e1, e2];
    ReadStep([e1, e2], e3);
    assert [e1, e2] + [e3] == [e1, e2, e3];
    assert FieldsOf([]) == Zero;
  }

  lemma Example5S()
    ensures SubunitOf("5S ribosomal RNA") == Some(S5)
  {
    assert StartsWith("5S ribosomal RNA", "5S");
    assert Contains("5S ribosomal RNA", "5S");
  }

  lemma Example16SHas16S()
    ensures Contains("16S ribosomal RNA", "16S")
  {
    assert StartsWith("16S ribosomal RNA", "16S");
  }

  lemma Example16S()
    ensures SubunitOf("16S ribosomal RNA") == Some(S16)
  {
    NotContainsFirst("16S ribosomal RNA", "5S");
    Example16SHas16S();
  }

  /** One 5S row and two 16S rows tally as 1, 2 and 0. */
  lemma ExampleTally(a: Feature, b: Feature)
    requires CountsAs(a, S5) && CountsAs(b, S16)
    ensures Tally([a, b, b], S5) == 1 && Tally([a, b, b], S16) == 2 && Tally([a, b, b], S23) == 0
  {
    assert [a, b, b][..2] == [a, b] && [a, b][..1] == [a] && [a][..0] == [];
    assert Tally([a], S5) == 1 && Tally([a], S16) == 0 && Tally([a], S23) == 0;
    assert Tally([a, b], S5) == 1 && Tally([a, b], S16) == 1 && Tally([a, b], S23) == 0;
  }

  /** The whole example: genes and mRNA default to 0, and the subunits are
      5S: 1, 16S: 2, 23S: 0. */
  lemma Example(summary: seq<string>, features: seq<Feature>)
    requires summary == ["CDS: 120", "tRNA: 20", "rRNA: 3"]
    requires features == [Feature("rRNA", "5S ribosomal RNA"), Feature("rRNA", "16S ribosomal RNA"),
                          Feature("rRNA", "16S ribosomal RNA")]
    ensures GeneCountsOf(summary, features) == Ok(Counts(120, 0, 0, 20, 3, 1, 2, 0))
  {
    ExampleCdsLine();
    ExampleTrnaLine();
    ExampleRrnaLine();
    EntriesOfThree(summary[0], summary[1], summary[2]);
    ExampleEntries(Parse(summary[0]), Parse(summary[1]), Parse(summary[2]));
    Example5S();
    Example16S();
    ExampleTally(features[0], features[1]);
  }
}
