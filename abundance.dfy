/** The relative-abundance calculator: drops the unbinned contigs, takes a
    length-weighted mean of contig coverage per bin, and divides each bin's
    mean by the sum of all means. Coverage is a `real`; a NaN or infinite
    quotient of the floating-point original is `None`. */
module Abundance {
  import opened Wrappers
  import opened Text
  import opened Numerals

  /** One row of the contig coverage table: `Bin Id`,
      `Sequence length (bp)` and `Coverage`. */
  datatype ContigRow = ContigRow(bin: string, length: nat, coverage: real)

  /** One output row: `mag` and `avg_mag_ra`. */
  datatype MagAbundance = MagAbundance(mag: string, avgMagRa: Option<real>)

  const Unbinned := "unbinned"

  /** `df[df['Bin Id'] != 'unbinned']`, keeping the order of the rows. */
  function Binned(rows: seq<ContigRow>): (b: seq<ContigRow>)
    ensures |b| <= |rows|
    ensures forall r :: r in b <==> r in rows && r.bin != Unbinned
    decreases |rows|
  {
    if rows == [] then []
    else
      var last := rows[|rows| - 1];
      assert rows == rows[..|rows| - 1] + [last];
      Binned(rows[..|rows| - 1]) + (if last.bin != Unbinned then [last] else [])
  }

  lemma {:induction false} BinnedAppend(a: seq<ContigRow>, b: seq<ContigRow>)
    ensures Binned(a + b) == Binned(a) + Binned(b)
    decreases |b|
  {
    if b == [] {
      assert a + b == a;
    } else {
      var last := b[|b| - 1];
      assert (a + b)[..|a + b| - 1] == a + b[..|b| - 1];
      assert (a + b)[|a + b| - 1] == last;
      BinnedAppend(a, b[..|b| - 1]);
    }
  }

  /** Strictly ascending in Python's string order. */
  predicate StrictlySorted(ids: seq<string>) {
    forall i, j :: 0 <= i < j < |ids| ==> Below(ids[i], ids[j])
  }

  /** Places `x` in a sorted list of distinct names, unless it is there. */
  function Insert(ids: seq<string>, x: string): (r: seq<string>)
    requires StrictlySorted(ids)
    ensures StrictlySorted(r)
    ensures forall m :: m in r <==> m in ids || m == x
    decreases |ids|
  {
    if ids == [] then [x]
    else if ids[0] == x then ids
    else if Below(x, ids[0]) then
      assert forall j :: 0 <= j < |ids| ==> Below(x, ids[j]) by {
        forall j | 0 < j < |ids| ensures Below(x, ids[j]) {
          BelowTransitive(x, ids[0], ids[j]);
        }
      }
      [x] + ids
    else
      BelowTotal(x, ids[0]);
      var rest := Insert(ids[1..], x);
      assert forall m :: m in rest ==> Below(ids[0], m) by {
        forall m | m in rest ensures Below(ids[0], m) {
          if m != x {
            var j :| 0 <= j < |ids[1..]| && ids[1..][j] == m;
            assert ids[j + 1] == m;
          }
        }
      }
      assert forall m :: m in ids <==> m == ids[0] || m in ids[1..] by {
        assert ids == [ids[0]] + ids[1..];
      }
      [ids[0]] + rest
  }

  /** The distinct bin names of `rows`, in ascending order: the group keys
      of `groupby('Bin Id')`, which sorts them. */
  function SortedBins(rows: seq<ContigRow>): (ids: seq<string>)
    ensures StrictlySorted(ids)
    ensures forall m :: m in ids <==> exists i :: 0 <= i < |rows| && rows[i].bin == m
    decreases |rows|
  {
    if rows == [] then []
    else
      var init := rows[..|rows| - 1];
      var ids := Insert(SortedBins(init), rows[|rows| - 1].bin);
      assert forall i :: 0 <= i < |init| ==> init[i] == rows[i];
      ids
  }

  /** `sum()` of the lengths of the rows of bin `m`. */
  function LengthOf(rows: seq<ContigRow>, m: string): nat
    decreases |rows|
  {
    if rows == [] then 0
    else
      var last := rows[|rows| - 1];
      LengthOf(rows[..|rows| - 1], m) + (if last.bin == m then last.length else 0)
  }

  /** The `Weighted Coverage` column: coverage times length. */
  function Weight(r: ContigRow): real {
    r.coverage * r.length as real
  }

  /** `sum()` of the `Weighted Coverage` (coverage × length) of bin `m`. */
  function WeightOf(rows: seq<ContigRow>, m: string): real
    decreases |rows|
  {
    if rows == [] then 0.0
    else
      var last := rows[|rows| - 1];
      WeightOf(rows[..|rows| - 1], m) + (if last.bin == m then Weight(last) else 0.0)
  }

  /** `avg_read_cov` of bin `m`: weight over length; `None` (NaN) when the
      bin's lengths sum to 0. */
  function MeanCoverage(rows: seq<ContigRow>, m: string): Option<real> {
    var len := LengthOf(rows, m);
    if len == 0 then None else Some(WeightOf(rows, m) / len as real)
  }

  /** `avg_read_cov.sum()`, which skips NaN. */
  function SkipNaSum(xs: seq<Option<real>>): real
    decreases |xs|
  {
    if xs == [] then 0.0
    else
      var last := xs[|xs| - 1];
      SkipNaSum(xs[..|xs| - 1]) + (if last.Some? then last.value else 0.0)
  }

  /** One quotient `x / total`: NaN stays NaN, and a zero total gives NaN
      or an infinity, neither of which is a number here. */
  function Share(x: Option<real>, total: real): (r: Option<real>)
    ensures r.Some? <==> x.Some? && total != 0.0
    ensures r.Some? ==> r.value * total == x.value
  {
    if x.None? || total == 0.0 then None else Some(x.value / total)
  }

  function Shares(xs: seq<Option<real>>, total: real): (ys: seq<Option<real>>)
    ensures |ys| == |xs|
    ensures forall i :: 0 <= i < |xs| ==> ys[i] == Share(xs[i], total)
  {
    seq(|xs|, i requires 0 <= i < |xs| => Share(xs[i], total))
  }

  /** The mean coverage of each sorted bin, in bin order. */
  function Means(rows: seq<ContigRow>, ids: seq<string>): (cs: seq<Option<real>>)
    ensures |cs| == |ids|
    ensures forall i :: 0 <= i < |ids| ==> cs[i] == MeanCoverage(rows, ids[i])
  {
    seq(|ids|, i requires 0 <= i < |ids| => MeanCoverage(rows, ids[i]))
  }

  /** `avg_read_cov.sum()`: the sum of the bins' mean coverages. */
  function MeanTotal(rows: seq<ContigRow>): real {
    SkipNaSum(Means(Binned(rows), SortedBins(Binned(rows))))
  }

  /** The whole calculation: the `mag`/`avg_mag_ra` table. */
  function RelativeAbundance(rows: seq<ContigRow>): (out: seq<MagAbundance>)
  {
    var binned := Binned(rows);
    var ids := SortedBins(binned);
    var cs := Means(binned, ids);
    var ras := Shares(cs, MeanTotal(rows));
    seq(|ids|, i requires 0 <= i < |ids| => MagAbundance(ids[i], ras[i]))
  }

  function Mags(out: seq<MagAbundance>): seq<string> {
    seq(|out|, i requires 0 <= i < |out| => out[i].mag)
  }

  /** The output has one row per distinct bin name other than `unbinned`,
      in ascending order of name. */
  lemma OneRowPerBin(rows: seq<ContigRow>)
    ensures StrictlySorted(Mags(RelativeAbundance(rows)))
    ensures forall m :: m in Mags(RelativeAbundance(rows)) <==>
                          m != Unbinned && exists i :: 0 <= i < |rows| && rows[i].bin == m
  {
    var binned := Binned(rows);
    var ids := SortedBins(binned);
    assert Mags(RelativeAbundance(rows)) == ids;
    forall m ensures m in ids <==> m != Unbinned && exists i :: 0 <= i < |rows| && rows[i].bin == m {
      if m in ids {
        var j :| 0 <= j < |binned| && binned[j].bin == m;
        assert binned[j] in rows;
        var i :| 0 <= i < |rows| && rows[i] == binned[j];
      }
      if m != Unbinned && exists i :: 0 <= i < |rows| && rows[i].bin == m {
        var i :| 0 <= i < |rows| && rows[i].bin == m;
        assert rows[i] in binned;
        var j :| 0 <= j < |binned| && binned[j] == rows[i];
      }
    }
  }

  /** Each row's abundance is its bin's mean coverage over the sum of all
      the means, with the bin's mean taken over its own contigs only. */
  lemma RowValue(rows: seq<ContigRow>, i: nat)
    requires i < |RelativeAbundance(rows)|
    ensures var out := RelativeAbundance(rows);
            var cs := Means(Binned(rows), Mags(out));
            out[i].mag != Unbinned &&
            out[i].avgMagRa == Share(MeanCoverage(rows, out[i].mag), SkipNaSum(cs))
  {
    var out := RelativeAbundance(rows);
    OneRowPerBin(rows);
    assert Mags(out)[i] == out[i].mag;
    assert out[i].mag in Mags(out);
    SameBinSums(rows, out[i].mag);
    assert Mags(out) == SortedBins(Binned(rows));
  }

  /** A non-`unbinned` bin has the same sums before and after the filter. */
  lemma {:induction false} SameBinSums(rows: seq<ContigRow>, m: string)
    requires m != Unbinned
    ensures LengthOf(Binned(rows), m) == LengthOf(rows, m)
    ensures WeightOf(Binned(rows), m) == WeightOf(rows, m)
    decreases |rows|
  {
    if rows != [] {
      var init, last := rows[..|rows| - 1], rows[|rows| - 1];
      SameBinSums(init, m);
      assert LengthOf(rows, m) == LengthOf(init, m) + (if last.bin == m then last.length else 0);
      assert WeightOf(rows, m) == WeightOf(init, m) + (if last.bin == m then Weight(last) else 0.0);
      if last.bin != Unbinned {
        assert Binned(rows) == Binned(init) + [last];
        SumsSnoc(Binned(init), last, m);
      } else {
        assert Binned(rows) == Binned(init);
        assert last.bin != m;
      }
    }
  }

  lemma SumsSnoc(rows: seq<ContigRow>, last: ContigRow, m: string)
    ensures LengthOf(rows + [last], m) == LengthOf(rows, m) + (if last.bin == m then last.length else 0)
    ensures WeightOf(rows + [last], m)
            == WeightOf(rows, m) + (if last.bin == m then Weight(last) else 0.0)
  {
    assert (rows + [last])[..|rows|] == rows;
  }

  /** No `unbinned` row, wherever it sits, changes the output. */
  lemma UnbinnedIgnored(a: seq<ContigRow>, b: seq<ContigRow>, u: ContigRow)
    requires u.bin == Unbinned
    ensures RelativeAbundance(a + [u] + b) == RelativeAbundance(a + b)
  {
    BinnedAppend(a + [u], b);
    BinnedAppend(a, [u]);
    BinnedAppend(a, b);
    assert Binned([u]) == [];
    assert Binned(a + [u]) == Binned(a);
  }

  /** Summing the shares sums the numbers and then divides. */
  lemma {:induction false} SharesSum(xs: seq<Option<real>>, total: real)
    requires total != 0.0
    ensures SkipNaSum(Shares(xs, total)) == SkipNaSum(xs) / total
    decreases |xs|
  {
    if xs != [] {
      var init := xs[..|xs| - 1];
      SharesSum(init, total);
      var ys := Shares(xs, total);
      assert ys[..|xs| - 1] == Shares(init, total);
      var last := xs[|xs| - 1];
      var x := if last.Some? then last.value else 0.0;
      assert SkipNaSum(ys) == SkipNaSum(init) / total + x / total;
      DivideSum(SkipNaSum(init), x, total);
    }
  }

  lemma DivideSum(a: real, b: real, t: real)
    requires t != 0.0
    ensures a / t + b / t == (a + b) / t
  {
  }

  /** The `avg_mag_ra` column sums to 1 whenever the means do not sum to 0. */
  lemma SumsToOne(rows: seq<ContigRow>)
    requires MeanTotal(rows) != 0.0
    ensures SkipNaSum(Abundances(RelativeAbundance(rows))) == 1.0
  {
    var cs := Means(Binned(rows), SortedBins(Binned(rows)));
    var total := SkipNaSum(cs);
    AbundancesAreShares(rows);
    SharesSum(cs, total);
    DivideSelf(total);
  }

  lemma DivideSelf(t: real)
    requires t != 0.0
    ensures t / t == 1.0
  {
  }

  lemma AbundancesAreShares(rows: seq<ContigRow>)
    ensures var cs := Means(Binned(rows), SortedBins(Binned(rows)));
            Abundances(RelativeAbundance(rows)) == Shares(cs, SkipNaSum(cs))
  {
    var binned := Binned(rows);
    var cs := Means(binned, SortedBins(binned));
    var out := RelativeAbundance(rows);
    var xs := Abundances(out);
    assert |xs| == |cs|;
    forall i | 0 <= i < |xs| ensures xs[i] == Shares(cs, SkipNaSum(cs))[i] { }
  }

  function Abundances(out: seq<MagAbundance>): seq<Option<real>> {
    seq(|out|, i requires 0 <= i < |out| => out[i].avgMagRa)
  }

  /** With non-negative coverage, the weight of a bin is at least `lo`
      times its length and at most `hi` times it, when every one of its
      contigs has coverage in [lo, hi]. */
  lemma {:induction false} WeightBounds(rows: seq<ContigRow>, m: string, lo: real, hi: real)
    requires forall i :: 0 <= i < |rows| && rows[i].bin == m ==> lo <= rows[i].coverage <= hi
    ensures Between(lo, hi, LengthOf(rows, m), WeightOf(rows, m))
    decreases |rows|
  {
    if rows != [] {
      var init := rows[..|rows| - 1];
      assert forall i :: 0 <= i < |init| ==> init[i] == rows[i];
      WeightBounds(init, m, lo, hi);
      var len, c := SnocParts(rows, m, lo, hi);
      WeightStep(lo, hi, LengthOf(init, m), WeightOf(init, m), len, c, LengthOf(rows, m), WeightOf(rows, m));
    }
  }

  /** What the last row adds to a bin's length and weight: `len` of
      coverage `c`, with `c` in [lo, hi] whenever `len` is not zero. */
  lemma SnocParts(rows: seq<ContigRow>, m: string, lo: real, hi: real) returns (len: nat, c: real)
    requires rows != []
    requires var last := rows[|rows| - 1]; last.bin == m ==> lo <= last.coverage <= hi
    ensures var init := rows[..|rows| - 1];
      LengthOf(rows, m) == LengthOf(init, m) + len &&
      WeightOf(rows, m) == WeightOf(init, m) + c * (len as real)
    ensures len == 0 || lo <= c <= hi
  {
    var last := rows[|rows| - 1];
    len := if last.bin == m then last.length else 0;
    c := if last.bin == m then last.coverage else lo;
  }

  /** A weight `w` over a length `l` between `lo` and `hi` times `l`. */
  predicate Between(lo: real, hi: real, l: nat, w: real) {
    lo * (l as real) <= w <= hi * (l as real)
  }

  /** One more contig of coverage `c` in [lo, hi] keeps the weight between
      `lo` and `hi` times the length. */
  lemma WeightStep(lo: real, hi: real, l0: nat, w0: real, len: nat, c: real, l: nat, w: real)
    requires Between(lo, hi, l0, w0) && (len == 0 || lo <= c <= hi)
    requires l == l0 + len && w == w0 + c * (len as real)
    ensures Between(lo, hi, l, w)
  {
    var a, b := l0 as real, len as real;
    assert (l0 + len) as real == a + b;
    assert lo * (a + b) == lo * a + lo * b;
    assert hi * (a + b) == hi * a + hi * b;
    assert lo * b <= c * b <= hi * b;
  }

  /** A bin's mean coverage lies between the least and the greatest
      coverage of its contigs. */
  lemma MeanWithinContigs(rows: seq<ContigRow>, m: string, lo: real, hi: real)
    requires forall i :: 0 <= i < |rows| && rows[i].bin == m ==> lo <= rows[i].coverage <= hi
    requires MeanCoverage(rows, m).Some?
    ensures lo <= MeanCoverage(rows, m).value <= hi
  {
    WeightBounds(rows, m, lo, hi);
    var len, w := LengthOf(rows, m) as real, WeightOf(rows, m);
    assert len > 0.0;
    DivideBounds(lo, w, hi, len);
  }

  lemma DivideBounds(lo: real, w: real, hi: real, len: real)
    requires len > 0.0 && lo * len <= w <= hi * len
    ensures lo <= w / len <= hi
  {
    assert w / len * len == w;
  }

  predicate NonNegative(rows: seq<ContigRow>) {
    forall r :: r in rows ==> r.coverage >= 0.0
  }

  lemma {:induction false} SumAtLeastEach(xs: seq<Option<real>>, i: nat)
    requires forall j :: 0 <= j < |xs| && xs[j].Some? ==> xs[j].value >= 0.0
    requires i < |xs| && xs[i].Some?
    ensures 0.0 <= xs[i].value <= SkipNaSum(xs)
    decreases |xs|
  {
    var init := xs[..|xs| - 1];
    SumNonNegative(init);
    if i < |xs| - 1 {
      SumAtLeastEach(init, i);
    }
  }

  lemma {:induction false} SumNonNegative(xs: seq<Option<real>>)
    requires forall j :: 0 <= j < |xs| && xs[j].Some? ==> xs[j].value >= 0.0
    ensures SkipNaSum(xs) >= 0.0
    decreases |xs|
  {
    if xs != [] {
      SumNonNegative(xs[..|xs| - 1]);
    }
  }

  /** With non-negative coverage every mean coverage that is a number is
      non-negative. */
  lemma MeanNonNegative(rows: seq<ContigRow>, m: string)
    requires NonNegative(rows) && MeanCoverage(rows, m).Some?
    ensures MeanCoverage(rows, m).value >= 0.0
  {
    WeightBounds(rows, m, 0.0, Max(rows)) by { MaxBounds(rows); }
    DivideBounds(0.0, WeightOf(rows, m), Max(rows), LengthOf(rows, m) as real);
  }

  /** With non-negative coverage every `avg_mag_ra` that is a number lies in
      [0, 1]. */
  lemma WithinUnitInterval(rows: seq<ContigRow>, i: nat)
    requires NonNegative(rows)
    requires i < |RelativeAbundance(rows)| && RelativeAbundance(rows)[i].avgMagRa.Some?
    ensures 0.0 <= RelativeAbundance(rows)[i].avgMagRa.value <= 1.0
  {
    var cs := Means(Binned(rows), SortedBins(Binned(rows)));
    MeansNonNegative(rows);
    SumAtLeastEach(cs, i);
    var x, total := cs[i].value, SkipNaSum(cs);
    AbundanceIsShare(rows, i);
    UnitQuotient(x, total);
  }

  /** With non-negative coverage a zero total leaves every mean 0 or NaN,
      so each `avg_read_cov / 0` is pandas' 0/0, a NaN, never an infinity. */
  lemma ZeroTotalAllZero(rows: seq<ContigRow>)
    requires NonNegative(rows) && MeanTotal(rows) == 0.0
    ensures var cs := Means(Binned(rows), SortedBins(Binned(rows)));
            forall j :: 0 <= j < |cs| && cs[j].Some? ==> cs[j].value == 0.0
  {
    var binned := Binned(rows);
    var ids := SortedBins(binned);
    var cs := Means(binned, ids);
    assert NonNegative(binned);
    forall j | 0 <= j < |cs| && cs[j].Some? ensures cs[j].value >= 0.0 {
      MeanNonNegative(binned, ids[j]);
    }
    ZeroSumAllZero(cs);
  }

  /** Non-negative values whose NaN-skipping sum is 0 are all 0. */
  lemma ZeroSumAllZero(xs: seq<Option<real>>)
    requires forall j :: 0 <= j < |xs| && xs[j].Some? ==> xs[j].value >= 0.0
    requires SkipNaSum(xs) == 0.0
    ensures forall j :: 0 <= j < |xs| && xs[j].Some? ==> xs[j].value == 0.0
  {
    forall j | 0 <= j < |xs| && xs[j].Some? ensures xs[j].value == 0.0 {
      SumAtLeastEach(xs, j);
    }
  }

  /** With non-negative coverage every bin's mean that is a number is
      non-negative. */
  lemma MeansNonNegative(rows: seq<ContigRow>)
    requires NonNegative(rows)
    ensures var cs := Means(Binned(rows), SortedBins(Binned(rows)));
            forall j :: 0 <= j < |cs| && cs[j].Some? ==> cs[j].value >= 0.0
  {
    var binned := Binned(rows);
    var ids := SortedBins(binned);
    var cs := Means(binned, ids);
    assert NonNegative(binned);
    forall j | 0 <= j < |cs| && cs[j].Some? ensures cs[j].value >= 0.0 {
      MeanNonNegative(binned, ids[j]);
    }
  }

  /** The `i`-th `avg_mag_ra` is the `i`-th mean over the sum of means. */
  lemma AbundanceIsShare(rows: seq<ContigRow>, i: nat)
    requires i < |RelativeAbundance(rows)| && RelativeAbundance(rows)[i].avgMagRa.Some?
    ensures var cs := Means(Binned(rows), SortedBins(Binned(rows)));
            i < |cs| && cs[i].Some? && SkipNaSum(cs) != 0.0
            && RelativeAbundance(rows)[i].avgMagRa == Some(cs[i].value / SkipNaSum(cs))
  {
  }

  /** The greatest coverage of the rows, or 0 for none. */
  function Max(rows: seq<ContigRow>): real
    decreases |rows|
  {
    if rows == [] then 0.0
    else
      var m := Max(rows[..|rows| - 1]);
      var c := rows[|rows| - 1].coverage;
      if c > m then c else m
  }

  lemma {:induction false} MaxBounds(rows: seq<ContigRow>)
    requires NonNegative(rows)
    ensures forall i :: 0 <= i < |rows| ==> 0.0 <= rows[i].coverage <= Max(rows)
    decreases |rows|
  {
    if rows != [] {
      var init := rows[..|rows| - 1];
      assert NonNegative(init) by {
        forall r | r in init ensures r.coverage >= 0.0 { assert r in rows; }
      }
      MaxBounds(init);
    }
  }

  // The worked example: two contigs of 100 bp at coverage 10 and 20 in one
  // bin, and one of 50 bp at coverage 5 in the next.

  lemma ExampleBins(rows: seq<ContigRow>, m1: string, m2: string)
    requires m1 != Unbinned && m2 != Unbinned && Below(m1, m2)
    requires rows == [ContigRow(m1, 100, 10.0), ContigRow(m1, 100, 20.0), ContigRow(m2, 50, 5.0)]
    ensures Binned(rows) == rows && SortedBins(rows) == [m1, m2]
  {
    ExampleBinned(rows, m1, m2);
    ExampleSorted(rows, m1, m2);
  }

  lemma ExampleBinned(rows: seq<ContigRow>, m1: string, m2: string)
    requires m1 != Unbinned && m2 != Unbinned
    requires rows == [ContigRow(m1, 100, 10.0), ContigRow(m1, 100, 20.0), ContigRow(m2, 50, 5.0)]
    ensures Binned(rows) == rows
  {
    BinnedKeepsAll(rows);
  }

  /** Rows that all belong to a bin are kept as they are. */
  lemma {:induction false} BinnedKeepsAll(rows: seq<ContigRow>)
    requires forall i :: 0 <= i < |rows| ==> rows[i].bin != Unbinned
    ensures Binned(rows) == rows
    decreases |rows|
  {
    if rows != [] {
      FrontLast(rows);
      BinnedKeepsAll(rows[..|rows| - 1]);
    }
  }

  lemma ExampleSorted(rows: seq<ContigRow>, m1: string, m2: string)
    requires Below(m1, m2)
    requires rows == [ContigRow(m1, 100, 10.0), ContigRow(m1, 100, 20.0), ContigRow(m2, 50, 5.0)]
    ensures SortedBins(rows) == [m1, m2]
  {
    BelowIrreflexive(m1);
    BelowAsymmetric(m1, m2);
    assert rows[..2][..1] == rows[..1] && rows[..1][..0] == [];
    assert SortedBins(rows[..1]) == [m1];
    assert SortedBins(rows[..2]) == [m1];
    assert [m1][1..] == [];
    assert Insert([m1], m2) == [m1, m2];
  }

  /** The first bin's mean is 15 and the second's is 5. */
  lemma ExampleMeans(rows: seq<ContigRow>, m1: string, m2: string)
    requires m1 != m2
    requires rows == [ContigRow(m1, 100, 10.0), ContigRow(m1, 100, 20.0), ContigRow(m2, 50, 5.0)]
    ensures MeanCoverage(rows, m1) == Some(15.0) && MeanCoverage(rows, m2) == Some(5.0)
  {
    var r0, r1, r2 := rows[0], rows[1], rows[2];
    assert [] + [r0] == [r0] && [r0] + [r1] == [r0, r1] && [r0, r1] + [r2] == rows;
    SumsSnoc([], r0, m1);
    SumsSnoc([r0], r1, m1);
    SumsSnoc([r0, r1], r2, m1);
    SumsSnoc([], r0, m2);
    SumsSnoc([r0], r1, m2);
    SumsSnoc([r0, r1], r2, m2);
    assert Weight(r0) == 1000.0 && Weight(r1) == 2000.0 && Weight(r2) == 250.0;
  }

  lemma ExampleTotal(cs: seq<Option<real>>)
    requires cs == [Some(15.0), Some(5.0)]
    ensures SkipNaSum(cs) == 20.0
  {
    assert cs[..1] == [Some(15.0)] && cs[..1][..0] == [];
    assert SkipNaSum(cs[..1][..0]) == 0.0;
    assert SkipNaSum(cs[..1]) == 15.0;
    assert cs[..|cs| - 1] == cs[..1];
  }

  /** The means 15 and 5 give abundances 0.75 and 0.25. */
  lemma Example(m1: string, m2: string)
    requires m1 != Unbinned && m2 != Unbinned && Below(m1, m2)
    ensures RelativeAbundance([ContigRow(m1, 100, 10.0), ContigRow(m1, 100, 20.0), ContigRow(m2, 50, 5.0)])
            == [MagAbundance(m1, Some(0.75)), MagAbundance(m2, Some(0.25))]
  {
    var rows := [ContigRow(m1, 100, 10.0), ContigRow(m1, 100, 20.0), ContigRow(m2, 50, 5.0)];
    BelowIrreflexive(m1);
    ExampleBins(rows, m1, m2);
    ExampleMeans(rows, m1, m2);
    var cs := Means(rows, [m1, m2]);
    assert cs == [Some(15.0), Some(5.0)];
    ExampleTotal(cs);
  }
}
