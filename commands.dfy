/** `print_cmds`: the shell commands of a Snakemake dry-run log, each rule's
    block headed by comments naming the rule and its wildcards. */
module Commands {
  import opened Text

  /** The non-empty lines of the log, in order. */
  function Filled(lines: seq<string>): (fi: seq<string>)
    ensures forall i :: 0 <= i < |fi| ==> fi[i] != ""
    ensures |fi| <= |lines|
    ensures forall x :: x in fi <==> x in lines && x != ""
    decreases |lines|
  {
    if |lines| == 0 then []
    else (if lines[0] != "" then [lines[0]] else []) + Filled(lines[1..])
  }

  /** The filter keeps the lines in order, with their repeats: it
      distributes over concatenation. */
  lemma {:induction false} FilledAppend(a: seq<string>, b: seq<string>)
    ensures Filled(a + b) == Filled(a) + Filled(b)
    decreases |a|
  {
    if |a| == 0 {
      assert a + b == b;
    } else {
      var head := if a[0] != "" then [a[0]] else [];
      var ab := a + b;
      assert ab[0] == a[0];
      assert ab[1..] == a[1..] + b;
      FilledAppend(a[1..], b);
      assert Filled(ab) == head + Filled(a[1..] + b);
      assert head + (Filled(a[1..]) + Filled(b)) == (head + Filled(a[1..])) + Filled(b);
    }
  }

  /** A single line is kept exactly when it is not empty. */
  lemma FilledLine(l: string)
    ensures Filled([l]) == if l != "" then [l] else []
  {
    assert [l][1..] == [];
  }

  /** A line that neither opens a rule, nor names wildcards, nor ends the
      rule's header. */
  predicate Plain(l: string) {
    !Contains(l, "rule") && !Contains(l, "wildcards") && !Contains(l, "resources")
  }

  /** Every line of `body` is plain. */
  predicate AllPlain(body: seq<string>) {
    forall i :: 0 <= i < |body| ==> Plain(body[i])
  }

  /** The first line of a plain block, and the rest of it. */
  lemma AllPlainFirst(body: seq<string>)
    requires |body| > 0 && AllPlain(body)
    ensures Plain(body[0]) && AllPlain(body[1..])
  {
    assert forall i :: 0 <= i < |body| - 1 ==> body[1..][i] == body[i + 1];
  }

  /** What one pass of the loop writes for a line, whether it leaves the
      echo on, and whether the loop stops after it. */
  datatype Visit = Visit(written: string, echo: bool, stop: bool)

  /** One pass of the loop body over line `l`, with the echo `write`. */
  function VisitLine(l: string, write: bool): Visit {
    var rule := Contains(l, "rule");
    var comment := if rule then "# " + Replace(Replace(Strip(l), "rule ", ""), ":", "") + "\n" else "";
    var w1 := if rule then false else write;
    var wildcards := if Contains(l, "wildcards") then "# " + Replace(Strip(l), "wildcards: ", "") + "\n" else "";
    var resources := Contains(l, "resources");
    var w2 := if resources then true else w1;
    var l2 := if resources then "" else l;
    var echoed := if w2 then Strip(l2) + "\n" else "";
    Visit(comment + wildcards + echoed, w2, Contains(l2, "rule make_config"))
  }

  /** What the loop writes from `ls` on, starting with the echo `write`. */
  function Emit(ls: seq<string>, write: bool): string
    decreases |ls|
  {
    if |ls| == 0 then ""
    else
      var v := VisitLine(ls[0], write);
      v.written + (if v.stop then "" else Emit(ls[1..], v.echo))
  }

  /** The first line's pass, then the rest unless it stops the loop. */
  lemma EmitFirst(ls: seq<string>, write: bool)
    requires |ls| > 0
    ensures var v := VisitLine(ls[0], write);
            Emit(ls, write) == v.written + (if v.stop then "" else Emit(ls[1..], v.echo))
  {
  }

  /** `print_cmds`: the text of `commands.sh` for the log `f`. */
  method PrintCmds(f: string) returns (out: string)
    ensures out == Emit(Filled(Split(f, "\n")), false)
  {
    var fi := Filled(Split(f, "\n"));
    var write := false;
    out := "";
    var i := 0;
    while i < |fi|
      invariant 0 <= i <= |fi|
      invariant out + Emit(fi[i..], write) == Emit(fi, false)
    {
      ghost var outBefore := out;
      VisitStep(fi, i, write);
      var written, stop;
      written, write, stop := Pass(fi[i], write);
      out := out + written;
      if stop {
        return;
      }
      AppendRegroup(outBefore, written, Emit(fi[i + 1..], write));
      i := i + 1;
    }
  }

  /** The loop body of `print_cmds` for line `l`: what it writes, the echo
      it leaves, and whether it breaks out of the loop. */
  method Pass(l: string, write: bool) returns (written: string, echo: bool, stop: bool)
    ensures Visit(written, echo, stop) == VisitLine(l, write)
  {
    var line := l;
    echo := write;
    var comment, wildcards, echoed := "", "", "";
    if Contains(line, "rule") {
      comment := "# " + Replace(Replace(Strip(line), "rule ", ""), ":", "") + "\n";
      echo := false;
    }
    if Contains(line, "wildcards") {
      wildcards := "# " + Replace(Strip(line), "wildcards: ", "") + "\n";
    }
    if Contains(line, "resources") {
      echo := true;
      line := "";
    }
    if echo {
      echoed := Strip(line) + "\n";
    }
    written := comment + wildcards + echoed;
    stop := Contains(line, "rule make_config");
  }

  /** One pass of the loop: the text written so far, then this line's part,
      then (unless the line stops the loop) what the remaining lines write. */
  lemma VisitStep(fi: seq<string>, i: nat, write: bool)
    requires i < |fi|
    ensures var v := VisitLine(fi[i], write);
            Emit(fi[i..], write) == v.written + (if v.stop then "" else Emit(fi[i + 1..], v.echo))
  {
    EmitFirst(fi[i..], write);
    assert fi[i..][1..] == fi[i + 1..];
  }

  /** A log split after its first line. */
  lemma Uncons(body: seq<string>, rest: seq<string>)
    requires |body| > 0
    ensures body + rest == [body[0]] + (body[1..] + rest)
  {
  }

  // Properties.

  /** Nothing after a `rule make_config` line is written. */
  lemma {:induction false} StopsAtMakeConfig(ls: seq<string>, k: nat, write: bool)
    requires k < |ls| && Contains(ls[k], "rule make_config") && !Contains(ls[k], "resources")
    ensures Emit(ls, write) == Emit(ls[..k + 1], write)
    decreases k
  {
    var v := VisitLine(ls[0], write);
    var pre := ls[..k + 1];
    assert pre[0] == ls[0];
    if k == 0 {
      MakeConfigStops(ls[0], write);
    } else if !v.stop {
      assert pre[1..] == ls[1..][..k];
      StopsAtMakeConfig(ls[1..], k - 1, v.echo);
    }
    EmitAgree(ls, pre, write);
  }

  /** Two logs with the same first line write the same text when that
      line stops the loop or the rest write the same text. */
  lemma EmitAgree(a: seq<string>, b: seq<string>, write: bool)
    requires |a| > 0 && |b| > 0 && a[0] == b[0]
    requires var v := VisitLine(a[0], write); v.stop || Emit(a[1..], v.echo) == Emit(b[1..], v.echo)
    ensures Emit(a, write) == Emit(b, write)
  {
    EmitFirst(a, write);
    EmitFirst(b, write);
  }

  /** A `rule make_config` line (that does not end a rule's header) breaks
      out of the loop. */
  lemma MakeConfigStops(l: string, write: bool)
    requires Contains(l, "rule make_config") && !Contains(l, "resources")
    ensures VisitLine(l, write).stop
  {
  }

  /** A plain line writes nothing while the echo is off and itself,
      stripped, while it is on; the echo stays as it was. */
  lemma PlainLine(l: string, write: bool)
    requires Plain(l)
    ensures VisitLine(l, write) == Visit(if write then Strip(l) + "\n" else "", write, false)
  {
    if Contains(l, "rule make_config") {
      ContainsPrefix(l, "rule make_config", "rule");
    }
  }

  /** The stripped lines of a block, one per line. */
  function Echo(body: seq<string>): string
    decreases |body|
  {
    if |body| == 0 then "" else Strip(body[0]) + "\n" + Echo(body[1..])
  }

  /** After a `resources` line, the lines up to the next rule are copied,
      stripped; the `resources` line itself leaves an empty line. */
  lemma ResourcesBlock(r: string, body: seq<string>, rest: seq<string>, write: bool)
    requires Contains(r, "resources") && !Contains(r, "rule") && !Contains(r, "wildcards")
    requires AllPlain(body)
    ensures Emit([r] + body + rest, write) == "\n" + (Echo(body) + Emit(rest, true))
  {
    calc {
      Emit([r] + body + rest, write);
      { assert [r] + body + rest == [r] + (body + rest); }
      Emit([r] + (body + rest), write);
      { EmitResources(r, body + rest, write); }
      "\n" + Emit(body + rest, true);
      { EchoBlock(body, rest); }
      "\n" + (Echo(body) + Emit(rest, true));
    }
  }

  /** A `resources` line in front of others. */
  lemma EmitResources(r: string, rest: seq<string>, write: bool)
    requires Contains(r, "resources") && !Contains(r, "rule") && !Contains(r, "wildcards")
    ensures Emit([r] + rest, write) == "\n" + Emit(rest, true)
  {
    ResourcesLine(r, write);
    EmitFirst([r] + rest, write);
    assert ([r] + rest)[1..] == rest;
  }

  /** The `resources` line itself: an empty line, and the echo on. */
  lemma ResourcesLine(r: string, write: bool)
    requires Contains(r, "resources") && !Contains(r, "rule") && !Contains(r, "wildcards")
    ensures VisitLine(r, write) == Visit("\n", true, false)
  {
    assert Strip("") == "";
    assert !Contains("", "rule make_config");
  }

  /** A plain line in front of others. */
  lemma EmitPlain(l: string, rest: seq<string>, write: bool)
    requires Plain(l)
    ensures Emit([l] + rest, write) == (if write then Strip(l) + "\n" else "") + Emit(rest, write)
  {
    PlainLine(l, write);
    EmitFirst([l] + rest, write);
    assert ([l] + rest)[1..] == rest;
  }

  /** Plain lines while echoing: each is copied, stripped. */
  lemma {:induction false} EchoBlock(body: seq<string>, rest: seq<string>)
    requires AllPlain(body)
    ensures Emit(body + rest, true) == Echo(body) + Emit(rest, true)
    decreases |body|
  {
    if |body| > 0 {
      AllPlainFirst(body);
      EchoBlock(body[1..], rest);
      EchoStep(body, rest);
    } else {
      assert body + rest == rest;
    }
  }

  /** One line of `EchoBlock`'s induction. */
  lemma EchoStep(body: seq<string>, rest: seq<string>)
    requires |body| > 0 && Plain(body[0])
    requires Emit(body[1..] + rest, true) == Echo(body[1..]) + Emit(rest, true)
    ensures Emit(body + rest, true) == Echo(body) + Emit(rest, true)
  {
    var head := Strip(body[0]) + "\n";
    Uncons(body, rest);
    EmitPlain(body[0], body[1..] + rest, true);
    AppendRegroup(head, Echo(body[1..]), Emit(rest, true));
  }

  /** Plain lines while not echoing write nothing. */
  lemma {:induction false} QuietBlock(body: seq<string>, rest: seq<string>)
    requires AllPlain(body)
    ensures Emit(body + rest, false) == Emit(rest, false)
    decreases |body|
  {
    if |body| > 0 {
      AllPlainFirst(body);
      Uncons(body, rest);
      EmitPlain(body[0], body[1..] + rest, false);
      QuietBlock(body[1..], rest);
    } else {
      assert body + rest == rest;
    }
  }

  /** A `rule <name>:` line (as Snakemake prints it) writes the comment
      `# <name>` and turns the echo off. */
  lemma RuleLine(name: string, write: bool)
    requires ' ' !in name && ':' !in name
    requires !Contains("rule " + name + ":", "wildcards")
    requires !Contains("rule " + name + ":", "resources")
    ensures var v := VisitLine("rule " + name + ":", write);
            v.written == "# " + name + "\n" && !v.echo
  {
    var l := "rule " + name + ":";
    assert l == "rule" + (" " + name + ":");
    ContainsAt(l, "rule", 0);
    StripUnchanged(l);
    RuleRemoved(name);
    var v := VisitLine(l, write);
    assert v.written == "# " + name + "\n" + "" + "";
  }

  /** `.replace('rule ', '').replace(':', '')` of `rule <name>:`. */
  lemma RuleRemoved(name: string)
    requires ' ' !in name && ':' !in name
    ensures Replace(Replace("rule " + name + ":", "rule ", ""), ":", "") == name
  {
    var l := "rule " + name + ":";
    assert StartsWith(l, "rule ");
    assert l[5..] == name + ":";
    assert ' ' !in name + ":";
    assert ' ' in "rule ";
    ContainsNeedsChar(name + ":", "rule ", ' ');
    ReplaceAbsent(name + ":", "rule ", "");
    assert Replace(l, "rule ", "") == "" + Replace(name + ":", "rule ", "");
    assert "" + (name + ":") == name + ":";
    assert Replace(l, "rule ", "") == name + ":";
    forall j | 0 <= j < |name| ensures !StartsWith((name + ":")[j..], ":") {
      assert (name + ":")[j] == name[j];
    }
    ReplaceSuffix(name, ":", "");
    assert name + "" == name;
  }
}
