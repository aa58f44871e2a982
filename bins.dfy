/** The MAG-file utilities of the workflow: the CAMP naming check on bin
    files, the prefixes the sample ingestion gives each bin, and the FASTA
    header renumbering. */
module Bins {
  import opened Text
  import opened Numerals

  // The CAMP naming check.

  /** What the pattern `^bin\.\d+\.fa$` is tried against: `$` also matches
      just before a final newline. */
  function CampBody(name: string): (b: string)
    ensures b == name || b + "\n" == name
  {
    if |name| > 0 && name[|name| - 1] == '\n' then name[..|name| - 1] else name
  }

  /** `re.match(r'^bin\.\d+\.fa$', name)` succeeds. */
  predicate IsCampName(name: string) {
    var b := CampBody(name);
    |b| > 7 && b[..4] == "bin." && b[|b| - 3..] == ".fa" && AllDigits(b[4..|b| - 3])
  }

  /** The digits of a CAMP name. */
  function CampDigits(name: string): (d: string)
    requires IsCampName(name)
    ensures |d| > 0 && AllDigits(d)
    ensures name == "bin." + d + ".fa" || name == "bin." + d + ".fa\n"
  {
    var b := CampBody(name);
    assert b == b[..4] + b[4..|b| - 3] + b[|b| - 3..];
    b[4..|b| - 3]
  }

  /** Exactly the names `bin.<digits>.fa` pass, with or without a final
      newline. */
  lemma CampNameIff(d: string)
    ensures IsCampName("bin." + d + ".fa") <==> |d| > 0 && AllDigits(d)
    ensures IsCampName("bin." + d + ".fa\n") <==> |d| > 0 && AllDigits(d)
  {
    var n := "bin." + d + ".fa";
    assert CampBody(n) == n;
    assert n[..4] == "bin." && n[|n| - 3..] == ".fa" && n[4..|n| - 3] == d;
    assert CampBody(n + "\n") == n;
    assert "bin." + d + ".fa\n" == n + "\n";
  }

  /** `check_format`: every file's base name is a CAMP name. */
  predicate AllCamp(bins: seq<string>) {
    forall i :: 0 <= i < |bins| ==> IsCampName(Basename(bins[i]))
  }

  /** `check_format`: the loop stops at the first file that is not named
      the CAMP way. */
  method CheckFormat(bins: seq<string>) returns (ok: bool)
    ensures ok <==> AllCamp(bins)
    ensures !ok ==> exists i :: 0 <= i < |bins| && !IsCampName(Basename(bins[i]))
  {
    var i := 0;
    while i < |bins|
      invariant 0 <= i <= |bins|
      invariant forall j :: 0 <= j < i ==> IsCampName(Basename(bins[j]))
    {
      if !IsCampName(Basename(bins[i])) {
        return false;
      }
      i := i + 1;
    }
    return true;
  }

  // The prefixes of `ingest_samples`.

  /** `bin_lst.remove(x)` guarded by `x in bin_lst`: drops the first
      occurrence of `x`, if any. */
  function RemoveFirst(files: seq<string>, x: string): (r: seq<string>)
    ensures x !in files ==> r == files
    ensures x in files ==> |r| == |files| - 1
    ensures multiset(r) + (if x in files then multiset{x} else multiset{}) == multiset(files)
    decreases |files|
  {
    if files == [] then []
    else
      assert files == [files[0]] + files[1..];
      if files[0] == x then files[1..]
      else [files[0]] + RemoveFirst(files[1..], x)
  }

  /** It is the first occurrence that goes: the items before it and after
      it stay, in order. */
  lemma RemoveFirstSplit(a: seq<string>, x: string, b: seq<string>)
    requires x !in a
    ensures RemoveFirst(a + [x] + b, x) == a + b
  {
    var files := a + [x] + b;
    assert files[..|a|] == a && files[|a|] == x && files[|a| + 1..] == b;
    RemoveFirstAt(files, x, |a|);
  }

  /** Removing `x` whose first occurrence is at `k` cuts out item `k`. */
  lemma {:induction false} RemoveFirstAt(files: seq<string>, x: string, k: nat)
    requires k < |files| && files[k] == x && x !in files[..k]
    ensures RemoveFirst(files, x) == files[..k] + files[k + 1..]
    decreases k
  {
    if k > 0 {
      var rest := files[1..];
      assert files[0] == files[..k][0];
      assert rest[..k - 1] == files[1..k];
      assert x !in rest[..k - 1];
      RemoveFirstAt(rest, x, k - 1);
      assert rest[k..] == files[k + 1..];
      assert files[..k] == [files[0]] + files[1..k];
    }
  }

  /** A list naming `x` at most once (as `glob` does) no longer names it. */
  lemma RemoveFirstOnce(files: seq<string>, x: string)
    requires multiset(files)[x] <= 1
    ensures x !in RemoveFirst(files, x)
  {
    var r := RemoveFirst(files, x);
    assert multiset(r)[x] == 0;
  }

  /** The unbinned contigs' file of a MAG directory. */
  function UnbinnedPath(dir: string): string {
    dir + "/bin.unbinned.fa"
  }

  /** The bins of a MAG directory that get a prefix: the globbed files
      without the unbinned file. */
  function BinFiles(dir: string, found: seq<string>): seq<string> {
    RemoveFirst(found, UnbinnedPath(dir))
  }

  /** The prefix of the j-th bin: its number when every bin is named the
      CAMP way, `bin.<j>` otherwise. */
  function Prefixes(dir: string, found: seq<string>): (ps: seq<string>)
    ensures |ps| == |BinFiles(dir, found)|
  {
    var bins := BinFiles(dir, found);
    if AllCamp(bins) then
      seq(|bins|, j requires 0 <= j < |bins| => CampPrefix(Basename(bins[j])))
    else
      seq(|bins|, j requires 0 <= j < |bins| => "bin." + NatToString(j))
  }

  /** The second `.`-token of a CAMP name is its number. */
  lemma CampSecondToken(name: string)
    requires IsCampName(name)
    ensures |Split(name, ".")| > 1 && Split(name, ".")[1] == CampDigits(name)
  {
    var d := CampDigits(name);
    assert '.' !in d by {
      forall i | 0 <= i < |d| ensures d[i] != '.' { assert IsDigit(d[i]); }
    }
    if name == "bin." + d + ".fa" {
      assert ".fa" == "." + "fa";
      SecondPiece(d, "fa");
    } else {
      assert ".fa\n" == "." + "fa\n";
      SecondPiece(d, "fa\n");
    }
  }

  /** The second `.`-piece of `bin.<d>.<tail>`, for `d` without a dot. */
  lemma SecondPiece(d: string, tail: string)
    requires '.' !in d
    ensures var parts := Split("bin." + d + ("." + tail), ".");
            |parts| > 1 && parts[1] == d
  {
    assert "bin." + d + ("." + tail) == "bin" + "." + (d + "." + tail);
    SplitPrefix("bin", ".", d + "." + tail);
    SplitPrefix(d, ".", tail);
  }

  /** `name.split('.')[1]` for a CAMP name: its number. */
  function CampPrefix(name: string): (p: string)
    requires IsCampName(name)
    ensures p == CampDigits(name)
  {
    CampSecondToken(name);
    Split(name, ".")[1]
  }

  /** With CAMP names every prefix is the bin's number. */
  lemma CampPrefixes(dir: string, found: seq<string>, j: nat)
    requires AllCamp(BinFiles(dir, found)) && j < |BinFiles(dir, found)|
    ensures var name := Basename(BinFiles(dir, found)[j]);
            Prefixes(dir, found)[j] == CampDigits(name)
  {
  }

  /** A bin file `<dir>/bin.<n>.fa` gets the prefix `<n>` when all bins
      are named the CAMP way. */
  lemma CampPrefixOfFile(dir: string, found: seq<string>, j: nat, d: string)
    requires AllCamp(BinFiles(dir, found)) && j < |BinFiles(dir, found)|
    requires |d| > 0 && AllDigits(d)
    requires BinFiles(dir, found)[j] == dir + "/" + ("bin." + d + ".fa")
    ensures Prefixes(dir, found)[j] == d
  {
    var name := "bin." + d + ".fa";
    CampNameOf(d);
    BasenameIn(dir, name);
    CampPrefixes(dir, found, j);
  }

  /** `bin.<d>.fa` is a CAMP name with number `d`, and has no `/`. */
  lemma CampNameOf(d: string)
    requires |d| > 0 && AllDigits(d)
    ensures var name := "bin." + d + ".fa";
            '/' !in name && IsCampName(name) && CampDigits(name) == d
  {
    var name := "bin." + d + ".fa";
    assert '/' !in name by {
      assert forall i :: 0 <= i < |d| ==> name[4 + i] == d[i] && IsDigit(d[i]);
    }
    CampNameIff(d);
    var e := CampDigits(name);
    assert name[|name| - 1] == 'a';
    assert name == "bin." + e + ".fa";
    assert e == name[4..|name| - 3] == d;
  }

  /** Otherwise the j-th bin is `bin.<j>`, so no two bins share a prefix. */
  lemma FallbackPrefixesDistinct(dir: string, found: seq<string>, i: nat, j: nat)
    requires !AllCamp(BinFiles(dir, found))
    requires i < j < |BinFiles(dir, found)|
    ensures Prefixes(dir, found)[i] == "bin." + NatToString(i)
    ensures Prefixes(dir, found)[i] != Prefixes(dir, found)[j]
  {
    NatToStringInjective(i, j);
    PrefixedDistinct("bin.", NatToString(i), NatToString(j));
  }

  /** Different tails after a common head make different strings. */
  lemma PrefixedDistinct(head: string, a: string, b: string)
    requires a != b
    ensures head + a != head + b
  {
    assert (head + a)[|head|..] == a;
    assert (head + b)[|head|..] == b;
  }

  /** The unbinned file never gets a prefix when the directory lists it
      once. */
  lemma UnbinnedDropped(dir: string, found: seq<string>)
    requires multiset(found)[UnbinnedPath(dir)] <= 1
    ensures UnbinnedPath(dir) !in BinFiles(dir, found)
    ensures |Prefixes(dir, found)|
            == if UnbinnedPath(dir) in found then |found| - 1 else |found|
  {
    RemoveFirstOnce(found, UnbinnedPath(dir));
  }

  // `add_bin_num`: FASTA header renumbering.

  /** A FASTA header line. */
  predicate IsHeader(line: string) {
    |line| > 0 && line[0] == '>'
  }

  /** The number of header lines among `lines`. */
  function HeadersIn(lines: seq<string>): (n: nat)
    ensures n <= |lines|
    decreases |lines|
  {
    if lines == [] then 0
    else HeadersIn(lines[..|lines| - 1]) + (if IsHeader(lines[|lines| - 1]) then 1 else 0)
  }

  /** The contig name of a header: the line without surrounding newlines
      and without any `>`. */
  function ContigName(line: string): (name: string)
    ensures '>' !in name
  {
    RemoveChar(StripChar(line, '\n'), '>')
  }

  /** The renumbered header: `>{bin}_{k}\t{name}` and a newline. */
  function RenumberedHeader(bin: string, k: nat, line: string): (h: string)
    ensures IsHeader(h) && h[|h| - 1] == '\n'
  {
    ">" + bin + "_" + NatToString(k) + "\t" + ContigName(line) + "\n"
  }

  /** Line `j` of the renumbered file. */
  function RenumberedLine(lines: seq<string>, bin: string, j: nat): string
    requires j < |lines|
  {
    if IsHeader(lines[j]) then RenumberedHeader(bin, HeadersIn(lines[..j]), lines[j]) else lines[j]
  }

  /** `add_bin_num` over the lines of a FASTA file (each, as a file yields
      it, non-empty): the k-th header (from 0) is renumbered `k`, every
      other line is copied. */
  method AddBinNum(lines: seq<string>, bin: string) returns (out: seq<string>)
    requires forall i :: 0 <= i < |lines| ==> |lines[i]| > 0
    ensures |out| == |lines|
    ensures forall i :: 0 <= i < |lines| && !IsHeader(lines[i]) ==> out[i] == lines[i]
    ensures forall i :: 0 <= i < |lines| && IsHeader(lines[i]) ==>
              out[i] == RenumberedHeader(bin, HeadersIn(lines[..i]), lines[i])
  {
    var ctgNum := 0;
    out := [];
    var i := 0;
    while i < |lines|
      invariant 0 <= i <= |lines| && |out| == i
      invariant ctgNum == HeadersIn(lines[..i])
      invariant forall j :: 0 <= j < i ==> out[j] == RenumberedLine(lines, bin, j)
    {
      var line := lines[i];
      HeadersInSnoc(lines, i);
      var next := line;
      if line[0] == '>' {
        var name := RemoveChar(StripChar(line, '\n'), '>');
        next := ">" + bin + "_" + NatToString(ctgNum) + "\t" + name + "\n";
        ctgNum := ctgNum + 1;
      }
      assert next == RenumberedLine(lines, bin, i);
      out := out + [next];
      i := i + 1;
    }
  }

  /** Counting headers one more line down the file. */
  lemma HeadersInSnoc(lines: seq<string>, i: nat)
    requires i < |lines|
    ensures HeadersIn(lines[..i + 1]) == HeadersIn(lines[..i]) + if IsHeader(lines[i]) then 1 else 0
  {
    assert lines[..i + 1][..i] == lines[..i];
  }

  /** Header numbers strictly increase down the file, so no two headers
      share one. */
  lemma {:induction false} HeaderNumbersIncrease(lines: seq<string>, i: nat, j: nat)
    requires i < j <= |lines| && IsHeader(lines[i])
    ensures HeadersIn(lines[..i]) < HeadersIn(lines[..j])
    decreases j
  {
    HeadersInSnoc(lines, j - 1);
    if j - 1 > i {
      HeaderNumbersIncrease(lines, i, j - 1);
    }
  }

  /** The output has exactly the input's headers, in the same places. */
  lemma HeadersKept(lines: seq<string>, out: seq<string>, bin: string)
    requires |out| == |lines|
    requires forall i :: 0 <= i < |lines| && !IsHeader(lines[i]) ==> out[i] == lines[i]
    requires forall i :: 0 <= i < |lines| && IsHeader(lines[i]) ==>
               out[i] == RenumberedHeader(bin, HeadersIn(lines[..i]), lines[i])
    ensures forall i :: 0 <= i < |lines| ==> (IsHeader(out[i]) <==> IsHeader(lines[i]))
  {
  }
}
