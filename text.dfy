/** The Python string operations the scripts rely on (`in`, `startswith`,
    `split`, `strip`, `replace`, `os.path.basename`, string ordering), written
    over `string` = `seq<char>`. */
module Text {
  import opened Wrappers

  /** Python's `str.isspace` restricted to ASCII: space, the controls
      \t \n \v \f \r and the separators \x1c to \x1f. */
  predicate IsSpace(c: char) {
    c == ' ' || ('\t' <= c <= '\r') || ('\U{1C}' <= c <= '\U{1F}')
  }

  /** `s.startswith(prefix)` */
  predicate StartsWith(s: string, prefix: string) {
    |prefix| <= |s| && s[..|prefix|] == prefix
  }

  /** `sub in s` */
  predicate Contains(s: string, sub: string)
    decreases |s|
  {
    StartsWith(s, sub) || (|s| > 0 && Contains(s[1..], sub))
  }

  /** A substring at a known position is found by `Contains`. */
  lemma {:induction false} ContainsAt(s: string, sub: string, i: nat)
    requires i + |sub| <= |s| && s[i..i + |sub|] == sub
    ensures Contains(s, sub)
    decreases i
  {
    if i > 0 {
      assert s[1..][i - 1..i - 1 + |sub|] == s[i..i + |sub|];
      ContainsAt(s[1..], sub, i - 1);
    }
  }

  /** A string lacking the first character of `sub` does not contain it. */
  lemma {:induction false} NotContainsFirst(s: string, sub: string)
    requires |sub| > 0 && sub[0] !in s
    ensures !Contains(s, sub)
    decreases |s|
  {
    if |s| > 0 {
      assert s[0] != sub[0];
      NotContainsFirst(s[1..], sub);
    }
  }

  /** A string containing `sub` contains every prefix of `sub`. */
  lemma {:induction false} ContainsPrefix(s: string, sub: string, pre: string)
    requires StartsWith(sub, pre) && Contains(s, sub)
    ensures Contains(s, pre)
    decreases |s|
  {
    if StartsWith(s, sub) {
      assert s[..|pre|] == sub[..|pre|];
    } else {
      ContainsPrefix(s[1..], sub, pre);
    }
  }

  /** A string lacking some character of `sub` does not contain it. */
  lemma {:induction false} ContainsNeedsChar(s: string, sub: string, c: char)
    requires c in sub && c !in s
    ensures !Contains(s, sub)
    decreases |s|
  {
    if |s| > 0 {
      ContainsNeedsChar(s[1..], sub, c);
    }
  }

  /** `s.find(sep)`, with `None` for -1. */
  function IndexOf(s: string, sep: string): (r: Option<nat>)
    requires |sep| > 0
    ensures r.Some? ==> r.value + |sep| <= |s| && s[r.value..r.value + |sep|] == sep
    ensures r.Some? ==> forall j :: 0 <= j < r.value ==> !StartsWith(s[j..], sep)
    ensures r.None? ==> forall j :: 0 <= j <= |s| ==> !StartsWith(s[j..], sep)
    decreases |s|
  {
    if StartsWith(s, sep) then Some(0)
    else if |s| == 0 then None
    else
      var rest := IndexOf(s[1..], sep);
      assert forall j :: 1 <= j <= |s| ==> s[1..][j - 1..] == s[j..];
      match rest
      case None => None
      case Some(i) => IndexOfStep(s, sep, i); Some(i + 1)
  }

  /** A match at `i` in `s[1..]` is a match at `i + 1` in `s`. */
  lemma IndexOfStep(s: string, sep: string, i: nat)
    requires |s| > 0 && i + |sep| <= |s| - 1 && s[1..][i..i + |sep|] == sep
    ensures i + 1 + |sep| <= |s| && s[i + 1..i + 1 + |sep|] == sep
  {
    assert s[1..][i..i + |sep|] == s[i + 1..i + 1 + |sep|];
  }

  /** `find` returns the first position where the separator occurs. */
  lemma IndexOfAt(s: string, sep: string, i: nat)
    requires |sep| > 0 && i + |sep| <= |s| && s[i..i + |sep|] == sep
    requires forall j :: 0 <= j < i ==> !StartsWith(s[j..], sep)
    ensures IndexOf(s, sep) == Some(i)
  {
    assert StartsWith(s[i..], sep) by {
      assert s[i..][..|sep|] == s[i..i + |sep|];
    }
    var r := IndexOf(s, sep);
    assert r.Some?;
    var k := r.value;
    assert StartsWith(s[k..], sep) by {
      assert s[k..][..|sep|] == s[k..k + |sep|];
    }
    assert k == i;
  }

  /** `s.split(sep)` for a non-empty separator: the pieces between the
      left-to-right, non-overlapping occurrences of `sep`. */
  function Split(s: string, sep: string): (parts: seq<string>)
    requires |sep| > 0
    ensures |parts| > 0
    decreases |s|
  {
    match IndexOf(s, sep)
    case None => [s]
    case Some(i) => [s[..i]] + Split(s[i + |sep|..], sep)
  }

  lemma {:induction false} IndexOfMissing(s: string, sep: string)
    requires |sep| > 0 && sep[0] !in s
    ensures IndexOf(s, sep) == None
    decreases |s|
  {
    if |s| > 0 {
      assert s[0] != sep[0];
      IndexOfMissing(s[1..], sep);
    }
  }

  /** A string without the separator's first character splits into itself
      alone. */
  lemma SplitWithoutSeparator(s: string, sep: string)
    requires |sep| > 0 && sep[0] !in s
    ensures Split(s, sep) == [s]
  {
    IndexOfMissing(s, sep);
  }

  /** A first piece free of a one-character separator splits off whole. */
  lemma SplitPrefix(a: string, sep: string, b: string)
    requires |sep| == 1 && sep[0] !in a
    ensures Split(a + sep + b, sep) == [a] + Split(b, sep)
  {
    var s := a + sep + b;
    forall j | 0 <= j < |a| ensures !StartsWith(s[j..], sep) {
      assert s[j..][0] == a[j];
    }
    assert s[|a|..|a| + 1] == sep;
    IndexOfAt(s, sep, |a|);
    assert s[..|a|] == a && s[|a| + 1..] == b;
  }

  /** The last piece of a split is what follows the last separator. */
  lemma {:induction false} SplitLast(a: string, sep: string, b: string)
    requires |sep| == 1 && sep[0] !in b
    ensures var parts := Split(a + sep + b, sep); parts[|parts| - 1] == b
    decreases |a|
  {
    if sep[0] in a {
      var a0, a1 := CutAtFirst(a, sep);
      var rest := a1 + sep + b;
      Reassoc(a0, sep, a1, b);
      SplitPrefix(a0, sep, rest);
      SplitLast(a1, sep, b);
      LastOfCons(a0, Split(rest, sep));
    } else {
      SplitPrefix(a, sep, b);
      SplitWithoutSeparator(b, sep);
    }
  }

  /** Splitting `a + sep + b`, with no separator in `b`, splits `a` and
      adds `b` as the last piece. */
  lemma {:induction false} SplitSnoc(a: string, sep: string, b: string)
    requires |sep| == 1 && sep[0] !in b
    ensures Split(a + sep + b, sep) == Split(a, sep) + [b]
    decreases |a|
  {
    if sep[0] in a {
      var a0, a1 := CutAtFirst(a, sep);
      var tail := Split(a1, sep);
      calc {
        Split(a + sep + b, sep);
        { Reassoc(a0, sep, a1, b); }
        Split(a0 + sep + (a1 + sep + b), sep);
        { SplitPrefix(a0, sep, a1 + sep + b); }
        [a0] + Split(a1 + sep + b, sep);
        { SplitSnoc(a1, sep, b); }
        [a0] + (tail + [b]);
        { AppendRegroup([a0], tail, [b]); }
        ([a0] + tail) + [b];
        { SplitPrefix(a0, sep, a1); }
        Split(a, sep) + [b];
      }
    } else {
      SplitPrefix(a, sep, b);
      SplitWithoutSeparator(b, sep);
      SplitWithoutSeparator(a, sep);
    }
  }

  /** `a` cut at the first occurrence of a one-character separator. */
  lemma CutAtFirst(a: string, sep: string) returns (a0: string, a1: string)
    requires |sep| == 1 && sep[0] in a
    ensures a == a0 + sep + a1 && sep[0] !in a0 && |a1| < |a|
  {
    var j := FirstIndex(a, sep[0]);
    a0, a1 := a[..j], a[j + 1..];
    assert a[j..j + 1] == sep;
    assert a == a[..j] + a[j..j + 1] + a[j + 1..];
  }

  /** Regrouping `a0 + sep + a1 + sep + b` after the first separator. */
  lemma Reassoc(a0: string, sep: string, a1: string, b: string)
    ensures (a0 + sep + a1) + sep + b == a0 + sep + (a1 + sep + b)
  {
  }

  lemma AppendRegroup<T>(x: seq<T>, y: seq<T>, z: seq<T>)
    ensures x + (y + z) == (x + y) + z
  {
  }

  lemma LastOfCons(x: string, xs: seq<string>)
    requires |xs| > 0
    ensures ([x] + xs)[|xs|] == xs[|xs| - 1]
  {
  }

  /** The index of the first `c` in `s`. */
  function FirstIndex(s: string, c: char): (i: nat)
    requires c in s
    ensures i < |s| && s[i] == c && c !in s[..i]
    decreases |s|
  {
    if s[0] == c then 0
    else
      assert c in s[1..] by { var k :| 0 <= k < |s| && s[k] == c; assert s[1..][k - 1] == c; }
      var i := 1 + FirstIndex(s[1..], c);
      assert s[..i] == [s[0]] + s[1..][..i - 1];
      i
  }

  /** `sep.join(parts)` */
  function Join(parts: seq<string>, sep: string): string
    decreases |parts|
  {
    if |parts| == 0 then ""
    else if |parts| == 1 then parts[0]
    else parts[0] + sep + Join(parts[1..], sep)
  }

  /** Splitting loses nothing: joining the pieces back gives the input. */
  lemma {:induction false} JoinSplit(s: string, sep: string)
    requires |sep| > 0
    ensures Join(Split(s, sep), sep) == s
    decreases |s|
  {
    match IndexOf(s, sep)
    case None =>
    case Some(i) =>
      var rest := Split(s[i + |sep|..], sep);
      JoinSplit(s[i + |sep|..], sep);
      assert Split(s, sep) == [s[..i]] + rest;
      assert ([s[..i]] + rest)[1..] == rest;
      assert |rest| > 0;
      calc {
        Join(Split(s, sep), sep);
        s[..i] + sep + Join(rest, sep);
        s[..i] + s[i..i + |sep|] + s[i + |sep|..];
        { Rejoin(s, i, i + |sep|); }
        s;
      }
  }

  /** A string cut in three pieces and put back together. */
  lemma Rejoin(s: string, i: nat, j: nat)
    requires i <= j <= |s|
    ensures s[..i] + s[i..j] + s[j..] == s
  {
  }

  /** No piece of a split on one character holds that character. */
  lemma {:induction false} SplitPiecesLack(s: string, c: char, k: nat)
    requires k < |Split(s, [c])|
    ensures c !in Split(s, [c])[k]
    decreases |s|
  {
    var parts := Split(s, [c]);
    match IndexOf(s, [c])
    case None =>
      assert parts == [s];
      NoStartLacks(s, c, |s|);
      assert s[..|s|] == s;
    case Some(i) =>
      var tail := Split(s[i + 1..], [c]);
      assert parts == [s[..i]] + tail;
      if k == 0 {
        NoStartLacks(s, c, i);
      } else {
        SplitPiecesLack(s[i + 1..], c, k - 1);
        ConsIndex(s[..i], tail, k);
      }
  }

  /** A non-empty sequence is its front followed by its last item. */
  lemma FrontLast<T>(xs: seq<T>)
    requires xs != []
    ensures xs[..|xs| - 1] + [xs[|xs| - 1]] == xs
    ensures forall i :: 0 <= i < |xs| - 1 ==> xs[..|xs| - 1][i] == xs[i]
  {
  }

  lemma ConsIndex<T>(x: T, xs: seq<T>, k: nat)
    requires 0 < k <= |xs|
    ensures ([x] + xs)[k] == xs[k - 1]
  {
  }

  /** A prefix none of whose positions starts with `c` lacks `c`. */
  lemma NoStartLacks(s: string, c: char, n: nat)
    requires n <= |s| && forall j :: 0 <= j < n ==> !StartsWith(s[j..], [c])
    ensures c !in s[..n]
  {
    forall j | 0 <= j < n ensures s[..n][j] != c {
      assert !StartsWith(s[j..], [c]);
      assert s[j..][..1] == [s[j]];
    }
  }

  /** `os.path.basename(p)`: what follows the last `/`. */
  function Basename(p: string): (b: string)
    ensures '/' !in b
  {
    var parts := Split(p, "/");
    var last := parts[|parts| - 1];
    SplitPiecesLack(p, '/', |parts| - 1);
    last
  }

  /** The base name of a path in a directory is the file's own name. */
  lemma BasenameIn(dir: string, name: string)
    requires '/' !in name
    ensures Basename(dir + "/" + name) == name
  {
    SplitLast(dir, "/", name);
  }

  /** A string holding `c` splits on it into at least two pieces. */
  lemma SplitAtLeastTwo(s: string, c: char)
    requires c in s
    ensures |Split(s, [c])| >= 2
  {
    var i := FirstIndex(s, c);
    assert s == s[..i] + [c] + s[i + 1..];
    SplitPrefix(s[..i], [c], s[i + 1..]);
  }

  /** The longest prefix of `s` whose characters all fail `drop`. */
  function TrimStart(s: string, drop: char -> bool): (r: string)
    ensures |r| <= |s| && r == s[|s| - |r|..]
    ensures forall i :: 0 <= i < |s| - |r| ==> drop(s[i])
    ensures |r| > 0 ==> !drop(r[0])
    decreases |s|
  {
    if |s| > 0 && drop(s[0]) then TrimStart(s[1..], drop) else s
  }

  function TrimEnd(s: string, drop: char -> bool): (r: string)
    ensures |r| <= |s| && r == s[..|r|]
    ensures forall i :: |r| <= i < |s| ==> drop(s[i])
    ensures |r| > 0 ==> !drop(r[|r| - 1])
    decreases |s|
  {
    if |s| > 0 && drop(s[|s| - 1]) then TrimEnd(s[..|s| - 1], drop) else s
  }

  /** `s.strip()` */
  function Strip(s: string): string {
    TrimEnd(TrimStart(s, IsSpace), IsSpace)
  }

  /** A string that neither starts nor ends with white space is its own
      `strip()`. */
  lemma StripUnchanged(s: string)
    requires |s| > 0 && !IsSpace(s[0]) && !IsSpace(s[|s| - 1])
    ensures Strip(s) == s
  {
  }

  /** `s.strip(c)` for a single character `c`. */
  function StripChar(s: string, c: char): string {
    TrimEnd(TrimStart(s, x => x == c), x => x == c)
  }

  /** `s.replace(c, '')` for a single character `c`. */
  function RemoveChar(s: string, c: char): (r: string)
    ensures c !in r
    ensures forall x :: x != c ==> (x in r <==> x in s)
    decreases |s|
  {
    if |s| == 0 then ""
    else if s[0] == c then RemoveChar(s[1..], c)
    else [s[0]] + RemoveChar(s[1..], c)
  }

  /** `s.replace(pat, rep)`: left-to-right, non-overlapping occurrences. */
  function Replace(s: string, pat: string, rep: string): string
    requires |pat| > 0
    decreases |s|
  {
    if StartsWith(s, pat) then rep + Replace(s[|pat|..], pat, rep)
    else if |s| == 0 then ""
    else [s[0]] + Replace(s[1..], pat, rep)
  }

  /** Replacing a substring that does not occur changes nothing. */
  lemma {:induction false} ReplaceAbsent(s: string, pat: string, rep: string)
    requires |pat| > 0 && !Contains(s, pat)
    ensures Replace(s, pat, rep) == s
    decreases |s|
  {
    if |s| > 0 {
      ReplaceAbsent(s[1..], pat, rep);
      assert [s[0]] + s[1..] == s;
    }
  }

  /** Replacing a pattern whose first occurrence ends the string. */
  lemma {:induction false} ReplaceSuffix(s: string, pat: string, rep: string)
    requires |pat| > 0
    requires forall j :: 0 <= j < |s| ==> !StartsWith((s + pat)[j..], pat)
    ensures Replace(s + pat, pat, rep) == s + rep
    decreases |s|
  {
    if |s| == 0 {
      assert s + pat == pat;
      assert pat[|pat|..] == "";
    } else {
      assert (s + pat)[0..] == s + pat;
      assert (s + pat)[1..] == s[1..] + pat;
      forall j | 0 <= j < |s[1..]| ensures !StartsWith((s[1..] + pat)[j..], pat) {
        assert (s[1..] + pat)[j..] == (s + pat)[j + 1..];
      }
      ReplaceSuffix(s[1..], pat, rep);
      assert [s[0]] + (s[1..] + rep) == s + rep;
    }
  }

  /** `str.split()` without arguments: the maximal runs of non-space
      characters. */
  function Words(s: string): (ws: seq<string>)
    ensures forall k :: 0 <= k < |ws| ==> |ws[k]| > 0
    decreases |s|
  {
    if |s| == 0 then []
    else if IsSpace(s[0]) then Words(s[1..])
    else
      var n := FirstSpace(s);
      [s[..n]] + Words(s[n..])
  }

  /** Index of the first space of `s`, or `|s|`. */
  function FirstSpace(s: string): (n: nat)
    ensures n <= |s|
    ensures forall i :: 0 <= i < n ==> !IsSpace(s[i])
    ensures n < |s| ==> IsSpace(s[n])
    decreases |s|
  {
    if |s| == 0 || IsSpace(s[0]) then 0 else 1 + FirstSpace(s[1..])
  }

  /** A word followed by white space or the end: its length is where the
      first space is. */
  lemma {:induction false} FirstSpaceAfterWord(w: string, t: string)
    requires forall i :: 0 <= i < |w| ==> !IsSpace(w[i])
    requires |t| == 0 || IsSpace(t[0])
    ensures FirstSpace(w + t) == |w|
    decreases |w|
  {
    if |w| > 0 {
      assert (w + t)[1..] == w[1..] + t;
      FirstSpaceAfterWord(w[1..], t);
    } else {
      assert w + t == t;
    }
  }

  /** `(w + " " + rest).split()` is `w` followed by the words of `rest`. */
  lemma WordsCons(w: string, rest: string)
    requires |w| > 0 && forall i :: 0 <= i < |w| ==> !IsSpace(w[i])
    ensures Words(w + " " + rest) == [w] + Words(rest)
  {
    var s := w + " " + rest;
    FirstSpaceAfterWord(w, " " + rest);
    assert s == w + (" " + rest);
    assert s[..|w|] == w && s[|w|..] == " " + rest;
    assert (" " + rest)[1..] == rest;
  }

  /** Two words separated by one space. */
  lemma TwoWords(w: string, v: string)
    requires |w| > 0 && forall i :: 0 <= i < |w| ==> !IsSpace(w[i])
    requires |v| > 0 && forall i :: 0 <= i < |v| ==> !IsSpace(v[i])
    ensures Words(w + " " + v) == [w, v]
  {
    WordsSingle(v);
    WordsCons(w, v);
    assert [w] + [v] == [w, v];
  }

  /** A lone word splits into itself. */
  lemma WordsSingle(w: string)
    requires |w| > 0 && forall i :: 0 <= i < |w| ==> !IsSpace(w[i])
    ensures Words(w) == [w]
  {
    FirstSpaceAfterWord(w, "");
    assert w + "" == w;
    assert w[|w|..] == "";
  }

  /** The index of the last element of `xs` that satisfies `p`. */
  function LastIndex<T>(xs: seq<T>, p: T -> bool): (r: Option<nat>)
    ensures r.Some? ==> r.value < |xs| && p(xs[r.value])
    ensures r.Some? ==> forall j :: r.value < j < |xs| ==> !p(xs[j])
    ensures r.None? ==> forall j :: 0 <= j < |xs| ==> !p(xs[j])
    decreases |xs|
  {
    if |xs| == 0 then None
    else if p(xs[|xs| - 1]) then Some(|xs| - 1)
    else LastIndex(xs[..|xs| - 1], p)
  }

  /** Appending an element that satisfies `p` makes it the last match;
      appending one that does not leaves the last match where it was. */
  lemma LastIndexSnoc<T>(xs: seq<T>, x: T, p: T -> bool)
    ensures LastIndex(xs + [x], p) == if p(x) then Some(|xs|) else LastIndex(xs, p)
  {
    assert (xs + [x])[..|xs|] == xs;
  }

  /** Python's `<` on strings: code-point lexicographic order, where a
      proper prefix comes first. */
  predicate Below(a: string, b: string)
    decreases |a|
  {
    if |a| == 0 then |b| > 0
    else |b| > 0 && (if a[0] == b[0] then Below(a[1..], b[1..]) else a[0] < b[0])
  }

  lemma {:induction false} BelowIrreflexive(a: string)
    ensures !Below(a, a)
    decreases |a|
  {
    if |a| > 0 { BelowIrreflexive(a[1..]); }
  }

  lemma {:induction false} BelowTransitive(a: string, b: string, c: string)
    requires Below(a, b) && Below(b, c)
    ensures Below(a, c)
    decreases |a|
  {
    if |a| > 0 && a[0] == b[0] && b[0] == c[0] {
      BelowTransitive(a[1..], b[1..], c[1..]);
    }
  }

  lemma {:induction false} BelowAsymmetric(a: string, b: string)
    requires Below(a, b)
    ensures !Below(b, a)
    decreases |a|
  {
    if |a| > 0 && a[0] == b[0] {
      BelowAsymmetric(a[1..], b[1..]);
    }
  }

  lemma {:induction false} BelowTotal(a: string, b: string)
    ensures a == b || Below(a, b) || Below(b, a)
    decreases |a|
  {
    if |a| > 0 && |b| > 0 && a[0] == b[0] {
      BelowTotal(a[1..], b[1..]);
      if a[1..] == b[1..] {
        assert a == [a[0]] + a[1..] && b == [b[0]] + b[1..];
      }
    }
  }
}
