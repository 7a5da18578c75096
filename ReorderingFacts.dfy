/**
 * What a parse guarantees: length, order and multiset of its output, the
 * terminator and POSIX rules, the missing-value warning, long-option completion
 * and short-cluster handling.
 */
module ReorderingFacts {
  import opened Seqs
  import opened OptionTable
  import opened Diagnostics
  import opened Reordering

  /** One tick's contribution: the token it appended and the list it went to. */
  datatype Emit = Emit(dest: Dest, token: string)

  /** The tick outcome of every input token, in input order. */
  function Trace(p: Parser, xs: seq<string>): (tr: seq<Emit>)
    ensures |tr| == |xs|
    decreases |xs|
  {
    if xs == [] then []
    else
      var n := |xs| - 1;
      var o := TickOutcome(p, Run(p, xs[..n]).state, xs[n]);
      Trace(p, xs[..n]) + [Emit(o.dest, o.token)]
  }

  function Tokens(tr: seq<Emit>): seq<string> {
    seq(|tr|, i requires 0 <= i < |tr| => tr[i].token)
  }

  /** The input as rewritten by the ticks: only long options ever change. */
  function Rewritten(p: Parser, xs: seq<string>): seq<string> {
    Tokens(Trace(p, xs))
  }

  /** The tokens of a trace that went to list `d`, in trace order. */
  function Select(tr: seq<Emit>, d: Dest): seq<string>
    decreases |tr|
  {
    if tr == [] then []
    else
      var n := |tr| - 1;
      Select(tr[..n], d) + (if tr[n].dest == d then [tr[n].token] else [])
  }

  lemma TokensSplit(tr: seq<Emit>)
    requires tr != []
    ensures Tokens(tr) == Tokens(tr[..|tr| - 1]) + [tr[|tr| - 1].token]
  {
  }

  /** `ans` and `spec` are exactly the trace's tokens sent to each list. */
  lemma {:induction false} RunFollowsTrace(p: Parser, xs: seq<string>)
    ensures Run(p, xs).ans == Select(Trace(p, xs), ToAns)
    ensures Run(p, xs).spec == Select(Trace(p, xs), ToSpec)
    decreases |xs|
  {
    if xs != [] {
      var n := |xs| - 1;
      RunFollowsTrace(p, xs[..n]);
      assert Trace(p, xs)[..n] == Trace(p, xs[..n]);
    }
  }

  /** What a list selects from a trace is an order-preserving subsequence of it. */
  lemma {:induction false} SelectIsSubsequence(tr: seq<Emit>, d: Dest)
    ensures IsSubsequence(Select(tr, d), Tokens(tr))
    decreases |tr|
  {
    if tr == [] {
    } else {
      var n := |tr| - 1;
      SelectIsSubsequence(tr[..n], d);
      TokensSplit(tr);
      assert Select(tr, d) == Select(tr[..n], d) + (if tr[n].dest == d then [tr[n].token] else []);
      if tr[n].dest == d {
        ExtendBoth(Select(tr[..n], d), Tokens(tr[..n]), tr[n].token);
      } else {
        assert Select(tr, d) == Select(tr[..n], d);
        ExtendRight(Select(tr[..n], d), Tokens(tr[..n]), tr[n].token);
      }
    }
  }

  /** Between them, the two lists hold every token of the trace exactly once. */
  lemma {:induction false} SelectPartitions(tr: seq<Emit>)
    ensures multiset(Select(tr, ToAns)) + multiset(Select(tr, ToSpec)) == multiset(Tokens(tr))
    decreases |tr|
  {
    if tr != [] {
      var n := |tr| - 1;
      SelectPartitions(tr[..n]);
      TokensSplit(tr);
    }
  }

  /**
   * The result is `ans` followed by `spec`; each keeps the order in which its
   * tokens appear in the rewritten input, and together they hold every rewritten
   * token once, so the result has the input's length.
   */
  lemma ReorderIsOrderedPartition(p: Parser, xs: seq<string>)
    ensures |Rewritten(p, xs)| == |xs|
    ensures IsSubsequence(Run(p, xs).ans, Rewritten(p, xs))
    ensures IsSubsequence(Run(p, xs).spec, Rewritten(p, xs))
    ensures multiset(Reorder(p, xs).args) == multiset(Rewritten(p, xs))
  {
    RunFollowsTrace(p, xs);
    SelectIsSubsequence(Trace(p, xs), ToAns);
    SelectIsSubsequence(Trace(p, xs), ToSpec);
    SelectPartitions(Trace(p, xs));
  }

  /** The rewritten input grows by the token of its last tick. */
  lemma RewrittenSnoc(p: Parser, xs: seq<string>)
    requires xs != []
    ensures var n := |xs| - 1;
      Rewritten(p, xs) == Rewritten(p, xs[..n]) + [TickOutcome(p, Run(p, xs[..n]).state, xs[n]).token]
  {
    var n := |xs| - 1;
    TokensSplit(Trace(p, xs));
    assert Trace(p, xs)[..n] == Trace(p, xs[..n]);
  }

  /** Token `i` comes out as it went in, unless it is a long option (not `--`) met while scanning. */
  lemma {:induction false} TokenKeptUnlessLong(p: Parser, xs: seq<string>, i: nat)
    requires i < |xs|
    ensures Rewritten(p, xs)[i] == xs[i] || (IsLongForm(xs[i]) && xs[i] != "--" && Run(p, xs[..i]).state == Scan)
    decreases |xs|
  {
    var n := |xs| - 1;
    RewrittenSnoc(p, xs);
    if i < n {
      TokenKeptUnlessLong(p, xs[..n], i);
      assert xs[..n][i] == xs[i];
      assert xs[..n][..i] == xs[..i];
    } else {
      assert xs[..n] == xs[..i];
    }
  }

  /**
   * A token comes out as it went in, unless it is a long option (not `--`)
   * met while scanning.
   */
  lemma OnlyLongOptionsRewritten(p: Parser, xs: seq<string>)
    ensures forall i :: 0 <= i < |xs| ==>
      (Rewritten(p, xs)[i] == xs[i] || (IsLongForm(xs[i]) && xs[i] != "--" && Run(p, xs[..i]).state == Scan))
  {
    forall i | 0 <= i < |xs|
      ensures Rewritten(p, xs)[i] == xs[i] || (IsLongForm(xs[i]) && xs[i] != "--" && Run(p, xs[..i]).state == Scan)
    {
      TokenKeptUnlessLong(p, xs, i);
    }
  }

  /** Without long options in the input the result is a permutation of the input. */
  lemma PermutationOfInput(p: Parser, xs: seq<string>)
    requires forall i :: 0 <= i < |xs| ==> !IsLongForm(xs[i]) || xs[i] == "--"
    ensures multiset(Reorder(p, xs).args) == multiset(xs)
  {
    ReorderIsOrderedPartition(p, xs);
    OnlyLongOptionsRewritten(p, xs);
    assert Rewritten(p, xs) == xs;
  }

  /** Once scanning has stopped, every later token goes to `spec` unchanged and unwarned. */
  lemma {:induction false} BreakAbsorbsRest(p: Parser, xs: seq<string>, ys: seq<string>)
    requires Run(p, xs).state == Break
    ensures var s := Run(p, xs); Run(p, xs + ys) == Snapshot(s.ans, s.spec + ys, Break, s.warnings)
    decreases |ys|
  {
    if ys == [] {
      assert xs + ys == xs;
    } else {
      var m := |ys| - 1;
      var s := Run(p, xs);
      BreakAbsorbsRest(p, xs, ys[..m]);
      assert (xs + ys)[..|xs + ys| - 1] == xs + ys[..m];
      assert ys == ys[..m] + [ys[m]];
      Seqs.Associative(s.spec, ys[..m], [ys[m]]);
    }
  }

  /**
   * A bare `--` met while scanning is kept in `ans`, and everything after it,
   * option-like or not, follows the deferred operands verbatim.
   */
  lemma TerminatorEndsScanning(p: Parser, pre: seq<string>, post: seq<string>)
    requires Run(p, pre).state == Scan
    ensures var s := Run(p, pre);
      Reorder(p, pre + ["--"] + post) == Parsed(s.ans + ["--"] + s.spec + post, s.warnings)
  {
    var s := Run(p, pre);
    assert (pre + ["--"])[..|pre|] == pre;
    assert Run(p, pre + ["--"]) == Snapshot(s.ans + ["--"], s.spec, Break, s.warnings);
    BreakAbsorbsRest(p, pre + ["--"], post);
    Associative(s.ans + ["--"], s.spec, post);
  }

  /**
   * In POSIX mode the first operand met while scanning is deferred and ends
   * option scanning: it and everything after it follow the deferred operands verbatim.
   */
  lemma PosixOperandEndsScanning(p: Parser, pre: seq<string>, x: string, post: seq<string>)
    requires p.posix && Run(p, pre).state == Scan && !IsOptionLike(x)
    ensures var s := Run(p, pre);
      Reorder(p, pre + [x] + post) == Parsed(s.ans + s.spec + [x] + post, s.warnings)
  {
    var s := Run(p, pre);
    assert (pre + [x])[..|pre|] == pre;
    assert Run(p, pre + [x]) == Snapshot(s.ans, s.spec + [x], Break, s.warnings);
    BreakAbsorbsRest(p, pre + [x], post);
    var r := Run(p, pre + [x] + post);
    assert r.state == Break && r.warnings == s.warnings;
    assert Reorder(p, pre + [x] + post).args == s.ans + ((s.spec + [x]) + post);
    Associative(s.ans, s.spec + [x], post);
    Associative(s.ans, s.spec, [x]);
  }

  /** Without POSIX mode and without permutation, `spec` stays empty until scanning stops. */
  lemma {:induction false} InPlaceRun(p: Parser, xs: seq<string>)
    requires !p.posix && !p.permutate
    ensures Run(p, xs).ans + Run(p, xs).spec == Rewritten(p, xs)
    ensures Run(p, xs).state != Break ==> Run(p, xs).spec == []
    decreases |xs|
  {
    if xs != [] {
      var n := |xs| - 1;
      var s := Run(p, xs[..n]);
      var o := TickOutcome(p, s.state, xs[n]);
      InPlaceRun(p, xs[..n]);
      RewrittenSnoc(p, xs);
      assert Run(p, xs) == Step(p, s, xs[n]);
      if o.dest == ToAns {
        assert s.state != Break;
        assert Run(p, xs) == Snapshot(s.ans + [o.token], [], o.next, s.warnings + o.diags);
      } else {
        assert Run(p, xs) == Snapshot(s.ans, s.spec + [o.token], Break, s.warnings + o.diags);
        Associative(s.ans, s.spec, [o.token]);
      }
    }
  }

  /** A trace none of whose entries goes to list `d` selects nothing for it. */
  lemma {:induction false} NoneSelected(tr: seq<Emit>, d: Dest)
    requires forall i :: 0 <= i < |tr| ==> tr[i].dest != d
    ensures Select(tr, d) == []
    decreases |tr|
  {
    if tr != [] {
      NoneSelected(tr[..|tr| - 1], d);
    }
  }

  /** When no token sent to `spec` precedes one sent to `ans`, `ans ++ spec` is the trace itself. */
  lemma {:induction false} OrderedSelect(tr: seq<Emit>)
    requires forall i, j :: 0 <= i < j < |tr| && tr[i].dest == ToSpec ==> tr[j].dest == ToSpec
    ensures Select(tr, ToAns) + Select(tr, ToSpec) == Tokens(tr)
    decreases |tr|
  {
    if tr != [] {
      var n := |tr| - 1;
      var front := tr[..n];
      assert forall i :: 0 <= i < n ==> front[i] == tr[i];
      OrderedSelect(front);
      TokensSplit(tr);
      if tr[n].dest == ToSpec {
        Associative(Select(front, ToAns), Select(front, ToSpec), [tr[n].token]);
      } else {
        NoneSelected(front, ToSpec);
      }
    }
  }

  /**
   * Input already in canonical order, where no token deferred to `spec` comes
   * before one kept in `ans`, comes back as it went in, apart from long-option
   * completion.
   */
  lemma CanonicalUnchanged(p: Parser, xs: seq<string>)
    requires forall i, j :: 0 <= i < j < |xs| && Trace(p, xs)[i].dest == ToSpec ==> Trace(p, xs)[j].dest == ToSpec
    ensures Reorder(p, xs).args == Rewritten(p, xs)
  {
    RunFollowsTrace(p, xs);
    OrderedSelect(Trace(p, xs));
  }

  /** Without POSIX mode and without permutation nothing is reordered. */
  lemma NoPermutationKeepsOrder(p: Parser, xs: seq<string>)
    requires !p.posix && !p.permutate
    ensures Reorder(p, xs).args == Rewritten(p, xs)
  {
    InPlaceRun(p, xs);
  }

  /** The token that follows a required-argument option is taken as its value, whatever its shape. */
  lemma RequiredValueVerbatim(p: Parser, pre: seq<string>, v: string)
    requires Run(p, pre).state == NeedValue
    ensures var s := Run(p, pre);
      Run(p, pre + [v]) == Snapshot(s.ans + [v], s.spec, Scan, s.warnings)
  {
    assert (pre + [v])[..|pre|] == pre;
  }

  /**
   * Input that ends while a value is due yields exactly one more warning, naming
   * the option the last tick appended to `ans`; no value is made up.
   */
  lemma MissingValueWarning(p: Parser, xs: seq<string>)
    ensures var s := Run(p, xs);
      s.state == NeedValue <==> Reorder(p, xs).warnings != s.warnings
    ensures var s := Run(p, xs); s.state == NeedValue ==>
      |xs| > 0 && IsOptionLike(xs[|xs| - 1])
      && Reorder(p, xs).warnings == s.warnings + [RequiredArgument(Rewritten(p, xs)[|xs| - 1])]
  {
    var s := Run(p, xs);
    if s.state == NeedValue {
      var n := |xs| - 1;
      TokensSplit(Trace(p, xs));
    }
  }

  // Long options.

  /**
   * A long name that is a key, or abbreviates exactly one key, resolves to it:
   * the key plus any `=value` is emitted, a value is due next only for a
   * required-argument key given without `=`, and an argument attached to a key
   * that takes none is warned about.
   */
  lemma LongResolves(t: OptDict, arg: string, i: nat)
    requires i < |t|
    requires LongName(arg) == t[i].0
      || (LongName(arg) <= t[i].0 && forall j :: 0 <= j < |t| && j != i ==> !(LongName(arg) <= t[j].0))
    ensures var o, key, a, v := LongOutcome(t, arg), t[i].0, t[i].1, AttachedValue(arg);
      o.token == key + v
      && (o.next == NeedValue <==> a == Required && v == [])
      && o.diags == (if v != [] && a == NoArg then [NotAllowedArgument(key)] else [])
  {
    assert Keys(t)[i] == t[i].0;
    if LongName(arg) != t[i].0 {
      UniqueAbbreviation(t, LongName(arg), i);
    }
    GetRegistered(t, t[i].0, t[i].1);
  }

  /** A long name that starts no key is warned about and the token emitted verbatim. */
  lemma LongUnrecognized(t: OptDict, arg: string)
    requires forall j :: 0 <= j < |t| ==> !(LongName(arg) <= t[j].0)
    ensures LongOutcome(t, arg) == Outcome(ToAns, arg, Scan, [UnrecognizedOption(arg)])
  {
    PrefixMatchesNone(t, LongName(arg));
  }

  /**
   * A long name that is no key but starts two keys is ambiguous: the token is
   * emitted verbatim with one warning listing every candidate in table order.
   */
  lemma LongAmbiguous(t: OptDict, arg: string, i: nat, j: nat)
    requires i < j < |t| && LongName(arg) <= t[i].0 && LongName(arg) <= t[j].0
    requires LongName(arg) !in Keys(t)
    ensures var o := LongOutcome(t, arg);
      o.token == arg && o.next == Scan && |o.diags| == 1 && o.diags[0].AmbiguousOption?
      && o.diags[0].option == arg
      && t[i].0 in o.diags[0].possibilities && t[j].0 in o.diags[0].possibilities
      && IsSubsequence(o.diags[0].possibilities, Keys(t))
      && o.diags[0].possibilities == PrefixMatches(t, LongName(arg))
  {
    AmbiguousAbbreviation(t, LongName(arg), i, j);
  }

  // Short clusters.

  /** The warnings for every unknown flag among `s`, in order. */
  function FlagWarnings(t: Entries, s: string): seq<Diag>
    decreases |s|
  {
    if s == [] then [] else FlagWarning(t, s[0]) + FlagWarnings(t, s[1..])
  }

  /** Flags before position `k` that take no argument do not change how the scan ends. */
  lemma {:induction false} ShortScanThrough(t: Entries, arg: string, j: nat, k: nat)
    requires 1 <= j <= k < |arg|
    requires forall m :: j <= m < k ==> FlagArity(t, arg[m]) == NoArg
    ensures ShortScan(t, arg, j).0 == ShortScan(t, arg, k).0
    decreases k - j
  {
    if j < k {
      ShortScanThrough(t, arg, j + 1, k);
      ShortScanContinues(t, arg, j);
    }
  }

  /** Flags before position `k` that take no argument each add their own warning, in order. */
  lemma {:induction false} ShortWarningsThrough(t: Entries, arg: string, j: nat, k: nat)
    requires 1 <= j <= k < |arg|
    requires forall m :: j <= m < k ==> FlagArity(t, arg[m]) == NoArg
    ensures ShortScan(t, arg, j).1 == FlagWarnings(t, arg[j..k]) + ShortScan(t, arg, k).1
    decreases k - j
  {
    if j < k {
      ShortWarningsThrough(t, arg, j + 1, k);
      ShortWarningsStep(t, arg, j, k);
    } else {
      assert arg[j..k] == [];
    }
  }

  /** One flag taking no argument in front of a run whose warnings are known. */
  lemma ShortWarningsStep(t: Entries, arg: string, j: nat, k: nat)
    requires 1 <= j < k < |arg| && FlagArity(t, arg[j]) == NoArg
    requires ShortScan(t, arg, j + 1).1 == FlagWarnings(t, arg[j + 1..k]) + ShortScan(t, arg, k).1
    ensures ShortScan(t, arg, j).1 == FlagWarnings(t, arg[j..k]) + ShortScan(t, arg, k).1
  {
    ShortScanContinues(t, arg, j);
    FlagWarningsSlice(t, arg, j, k);
    Associative(FlagWarning(t, arg[j]), FlagWarnings(t, arg[j + 1..k]), ShortScan(t, arg, k).1);
  }

  lemma FlagWarningsSlice(t: Entries, arg: string, j: nat, k: nat)
    requires j < k <= |arg|
    ensures FlagWarnings(t, arg[j..k]) == FlagWarning(t, arg[j]) + FlagWarnings(t, arg[j + 1..k])
  {
    assert arg[j..k][1..] == arg[j + 1..k];
  }

  /**
   * A cluster is decided by its first flag that takes an argument, or by its last
   * flag: a non-final flag with an argument swallows the rest of the cluster
   * (whose flags are then not looked at), and only a final required-argument flag
   * asks for the next token. Unknown flags up to that point are each warned about.
   */
  lemma ShortCluster(t: Entries, arg: string, k: nat)
    requires 1 <= k < |arg|
    requires forall m :: 1 <= m < k ==> FlagArity(t, arg[m]) == NoArg
    requires k == |arg| - 1 || FlagArity(t, arg[k]) != NoArg
    ensures ShortScan(t, arg, 1) == (
      if k == |arg| - 1 && FlagArity(t, arg[k]) == Required then NeedValue else Scan,
      FlagWarnings(t, arg[1..k + 1]))
  {
    ShortScanThrough(t, arg, 1, k);
    ShortWarningsThrough(t, arg, 1, k);
    FlagWarningsAppend(t, arg[1..k], arg[k]);
    assert arg[1..k] + [arg[k]] == arg[1..k + 1];
    var w := FlagWarning(t, arg[k]);
    if k == |arg| - 1 {
      assert ShortScan(t, arg, k + 1) == (Scan, []);
    }
    assert ShortScan(t, arg, k).1 == w;
  }

  lemma {:induction false} FlagWarningsAppend(t: Entries, s: string, c: char)
    ensures FlagWarnings(t, s + [c]) == FlagWarnings(t, s) + FlagWarning(t, c)
    decreases |s|
  {
    if s != [] {
      FlagWarningsAppend(t, s[1..], c);
      assert (s + [c])[1..] == s[1..] + [c];
    } else {
      assert [c][1..] == [];
    }
  }

  lemma {:induction false} ShortNeedsValueFrom(t: Entries, arg: string, j: nat)
    requires 1 <= j < |arg|
    ensures ShortScan(t, arg, j).0 == NeedValue <==>
      (forall m :: j <= m < |arg| - 1 ==> FlagArity(t, arg[m]) == NoArg) && FlagArity(t, arg[|arg| - 1]) == Required
    decreases |arg| - j
  {
    if j < |arg| - 1 && FlagArity(t, arg[j]) == NoArg {
      ShortNeedsValueFrom(t, arg, j + 1);
    }
  }

  /** A cluster asks for the next token exactly when all its flags but the last take no argument and the last requires one. */
  lemma ShortNeedsValue(t: OptDict, arg: string)
    requires |arg| >= 2
    ensures ShortOutcome(t, arg).next == NeedValue <==>
      (forall m :: 1 <= m < |arg| - 1 ==> FlagArity(t, arg[m]) == NoArg) && FlagArity(t, arg[|arg| - 1]) == Required
  {
    ShortNeedsValueFrom(t, arg, 1);
  }
}
