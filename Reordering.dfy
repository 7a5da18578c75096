/**
 * The argument-vector reordering of `_Parsing`, as functions: what one tick
 * does to one token, and what a whole parse produces. The class in Parsing.dfy
 * runs the same machine in place and is proved against these definitions.
 */
module Reordering {
  import opened OptionTable
  import opened Diagnostics

  /**
   * The settings a parse reads from its `Parser`. `prog` only prefixes warning
   * text, and `deabbreviate` is never read by the parse.
   */
  datatype Parser = Parser(optdict: OptDict, prog: string, deabbreviate: bool, permutate: bool, posix: bool)

  /**
   * The value `optn` threaded through the ticks: 0 (scanning), 1 (the next token
   * is a required value) or "break" (option scanning has stopped). A long option
   * of arity 2 yields 2, which every later test treats as 0, so it is `Scan` here.
   */
  datatype State = Scan | NeedValue | Break

  /** Which list a tick appends its token to: `ans` or `spec`. */
  datatype Dest = ToAns | ToSpec

  /** What one tick does: the one token it appends, where, the next state and its warnings. */
  datatype Outcome = Outcome(dest: Dest, token: string, next: State, diags: seq<Diag>)

  /** Starts with `-` and is not the lone `-`: an option token, or the terminator `--`. */
  predicate IsOptionLike(arg: string) {
    |arg| > 0 && arg[0] == '-' && arg != "-"
  }

  predicate IsLongForm(arg: string) {
    "--" <= arg
  }

  /** `arg.index("=")`, or `len(arg)` when there is no `=`. */
  function EqIndex(arg: string): (i: nat)
    ensures i <= |arg|
    ensures forall j :: 0 <= j < i ==> arg[j] != '='
    ensures i < |arg| ==> arg[i] == '='
  {
    if arg == [] || arg[0] == '=' then 0 else 1 + EqIndex(arg[1..])
  }

  /** The option name of a long token: everything before its first `=`. */
  function LongName(arg: string): string {
    arg[..EqIndex(arg)]
  }

  /** The attached part of a long token: empty, or `=` followed by the value. */
  function AttachedValue(arg: string): string {
    arg[EqIndex(arg)..]
  }

  /** The arity of short flag `-c`; an unknown flag counts as taking no argument. */
  function FlagArity(t: Entries, c: char): Arity {
    match Get(t, ['-', c])
    case None => NoArg
    case Some(a) => a
  }

  /** The warning for short flag `-c`: one when the flag is unknown, none otherwise. */
  function FlagWarning(t: Entries, c: char): seq<Diag> {
    if Get(t, ['-', c]).None? then [InvalidOption(c)] else []
  }

  /**
   * `tick_long`: a long token met while scanning. The name before `=` is completed
   * against the table; an unresolved or ambiguous name is warned about and the
   * token kept verbatim, a resolved one is emitted as the full key plus any value.
   */
  function LongOutcome(t: OptDict, arg: string): (o: Outcome)
    ensures o.dest == ToAns && o.next != Break && |o.diags| <= 1
    ensures o.token == arg || exists k :: k in Keys(t) && LongName(arg) <= k && o.token == k + AttachedValue(arg)
    ensures o.next == NeedValue ==> Get(t, o.token) == Some(Required) && AttachedValue(arg) == []
  {
    var ps := Possibilities(t, LongName(arg));
    if |ps| == 0 then
      Outcome(ToAns, arg, Scan, [UnrecognizedOption(arg)])
    else if |ps| > 1 then
      Outcome(ToAns, arg, Scan, [AmbiguousOption(arg, ps)])
    else
      var key := ps[0];
      GetFinds(t, key);
      var a := Get(t, key).value;
      if AttachedValue(arg) != [] then
        Outcome(ToAns, key + AttachedValue(arg), Scan, if a == NoArg then [NotAllowedArgument(key)] else [])
      else
        Outcome(ToAns, key, if a == Required then NeedValue else Scan, [])
  }

  /**
   * The loop of `tick_short` from cluster position `j` on: a flag that takes an
   * argument swallows the rest of the cluster, unless it is the last flag, in which
   * case a required argument is the next token.
   */
  function ShortScan(t: Entries, arg: string, j: nat): (r: (State, seq<Diag>))
    requires 1 <= j <= |arg|
    ensures r.0 != Break
    decreases |arg| - j
  {
    if j == |arg| then (Scan, [])
    else
      var d := FlagWarning(t, arg[j]);
      var a := FlagArity(t, arg[j]);
      if j != |arg| - 1 && a != NoArg then (Scan, d)
      else if j == |arg| - 1 && a == Required then (NeedValue, d)
      else
        var rest := ShortScan(t, arg, j + 1);
        (rest.0, d + rest.1)
  }

  /** One step of the cluster scan that neither stops nor asks for a value. */
  lemma ShortScanContinues(t: Entries, arg: string, j: nat)
    requires 1 <= j < |arg|
    requires !(j != |arg| - 1 && FlagArity(t, arg[j]) != NoArg)
    requires !(j == |arg| - 1 && FlagArity(t, arg[j]) == Required)
    ensures ShortScan(t, arg, j) == (ShortScan(t, arg, j + 1).0, FlagWarning(t, arg[j]) + ShortScan(t, arg, j + 1).1)
  {
  }

  /** Every warning of a cluster scan is an invalid-option warning for an unknown flag of the cluster. */
  lemma {:induction false} ShortScanWarnings(t: Entries, arg: string, j: nat)
    requires 1 <= j <= |arg|
    ensures forall d :: d in ShortScan(t, arg, j).1 ==>
      d.InvalidOption? && d.flag in arg[j..] && Get(t, ['-', d.flag]).None?
    decreases |arg| - j
  {
    if j < |arg| {
      assert arg[j..][0] == arg[j];
      var a := FlagArity(t, arg[j]);
      if !(j != |arg| - 1 && a != NoArg) && !(j == |arg| - 1 && a == Required) {
        ShortScanWarnings(t, arg, j + 1);
        ShortScanContinues(t, arg, j);
        assert forall x :: x in arg[j + 1..] ==> x in arg[j..];
      }
    }
  }

  /** `tick_short`: the whole cluster token is appended, then its flags are scanned. */
  function ShortOutcome(t: OptDict, arg: string): (o: Outcome)
    requires |arg| > 0
  {
    var r := ShortScan(t, arg, 1);
    Outcome(ToAns, arg, r.0, r.1)
  }

  /** `tick`: one token taken from the front of the working copy, in state `st`. */
  function TickOutcome(p: Parser, st: State, arg: string): (o: Outcome)
    ensures o.dest == ToSpec <==> st == Break || (st == Scan && !IsOptionLike(arg) && (p.posix || p.permutate))
    ensures o.next == Break <==> st == Break || (st == Scan && (arg == "--" || (!IsOptionLike(arg) && p.posix)))
    ensures o.next == NeedValue ==> st == Scan && IsOptionLike(arg) && arg != "--" && o.dest == ToAns
    ensures o.token != arg ==> st == Scan && IsLongForm(arg) && arg != "--"
    ensures o.diags != [] ==> st == Scan && IsOptionLike(arg) && arg != "--"
  {
    match st
    case Break => Outcome(ToSpec, arg, Break, [])
    case NeedValue => Outcome(ToAns, arg, Scan, [])
    case Scan =>
      if arg == "--" then Outcome(ToAns, "--", Break, [])
      else if IsOptionLike(arg) then
        if IsLongForm(arg) then LongOutcome(p.optdict, arg) else ShortOutcome(p.optdict, arg)
      else if p.posix then Outcome(ToSpec, arg, Break, [])
      else if p.permutate then Outcome(ToSpec, arg, Scan, [])
      else Outcome(ToAns, arg, Scan, [])
  }

  /** The parse's mutable state between two ticks: `ans`, `spec`, `optn` and the warnings so far. */
  datatype Snapshot = Snapshot(ans: seq<string>, spec: seq<string>, state: State, warnings: seq<Diag>)

  const Initial := Snapshot([], [], Scan, [])

  /** One tick applied to a snapshot: its token goes to the end of `ans` or of `spec`. */
  function Step(p: Parser, s: Snapshot, arg: string): Snapshot {
    var o := TickOutcome(p, s.state, arg);
    if o.dest == ToAns then Snapshot(s.ans + [o.token], s.spec, o.next, s.warnings + o.diags)
    else Snapshot(s.ans, s.spec + [o.token], o.next, s.warnings + o.diags)
  }

  /** The loop of `_Parsing.__post_init__` run over `xs`, one tick per token. */
  function Run(p: Parser, xs: seq<string>): (r: Snapshot)
    ensures |r.ans| + |r.spec| == |xs|
    ensures r.state == NeedValue ==> |r.ans| > 0
    decreases |xs|
  {
    if xs == [] then Initial else Step(p, Run(p, xs[..|xs| - 1]), xs[|xs| - 1])
  }

  /** The reordered vector with the warnings issued, in order. */
  datatype Parsed = Parsed(args: seq<string>, warnings: seq<Diag>)

  /**
   * A whole parse: `ans` followed by `spec`, plus one warning naming the last
   * option of `ans` when the input ended while a required value was still due.
   */
  function Reorder(p: Parser, xs: seq<string>): (r: Parsed)
    ensures |r.args| == |xs|
  {
    var s := Run(p, xs);
    var missing := if s.state == NeedValue then [RequiredArgument(s.ans[|s.ans| - 1])] else [];
    Parsed(s.ans + s.spec, s.warnings + missing)
  }
}
