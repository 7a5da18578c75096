/**
 * `_Parsing` and `Parser.parse_args`: the working copy of the arguments is
 * consumed from the front one token per tick, and every token lands at the end of
 * `ans` or of `spec`. Each method is proved against the functions of `Reordering`.
 */
module Parsing {
  import opened Seqs
  import opened OptionTable
  import opened Diagnostics
  import opened Reordering

  class Parsing {
    const parser: Parser
    /** The working copy, consumed from the front. */
    var args: seq<string>
    /** Recognised options and their values, `--`, and operands left in place; the result at the end. */
    var ans: seq<string>
    /** Deferred operands. */
    var spec: seq<string>
    /** Every warning issued, in order. */
    var warnings: seq<Diag>

    function Snap(optn: State): Snapshot
      reads this
    {
      Snapshot(ans, spec, optn, warnings)
    }

    /** `__post_init__`: tick until the working copy is empty, then check for a missing value. */
    constructor (parser: Parser, args: seq<string>)
      ensures this.parser == parser && this.args == []
      ensures ans == Reorder(parser, args).args
      ensures warnings == Reorder(parser, args).warnings
      ensures spec == Run(parser, args).spec
    {
      this.parser := parser;
      this.args := args;
      ans, spec, warnings := [], [], [];
      new;
      var optn := Drain();
      if optn == NeedValue {
        warnings := warnings + [RequiredArgument(ans[|ans| - 1])];
      }
      ans := ans + spec;
    }

    /** The `while self.args` loop of `__post_init__`, threading `optn` through the ticks. */
    method Drain() returns (optn: State)
      requires ans == [] && spec == [] && warnings == []
      modifies this
      ensures args == []
      ensures Snap(optn) == Run(parser, old(args))
    {
      optn := Scan;
      ghost var input := args;
      while |args| > 0
        invariant |args| <= |input|
        invariant args == input[|input| - |args|..]
        invariant Snap(optn) == Run(parser, input[..|input| - |args|])
        decreases |args|
      {
        ghost var done := input[..|input| - |args|];
        optn := Tick(optn);
        assert input[..|input| - |args|] == done + [input[|done|]];
      }
      assert input[..|input|] == input;
    }

    /** `tick`: pop the first token and file it according to the state `optn`. */
    method Tick(optn: State) returns (next: State)
      requires |args| > 0
      modifies this
      ensures args == old(args[1..])
      ensures Snap(next) == Step(parser, old(Snap(optn)), old(args[0]))
    {
      var arg := args[0];
      args := args[1..];
      if optn == Break {
        spec := spec + [arg];
        return Break;
      }
      if optn == NeedValue {
        ans := ans + [arg];
        return Scan;
      } else if arg == "--" {
        ans := ans + ["--"];
        return Break;
      } else if IsOptionLike(arg) {
        if IsLongForm(arg) {
          next := TickLong(arg);
        } else {
          next := TickShort(arg);
        }
      } else {
        if parser.posix {
          spec := spec + [arg];
          return Break;
        } else if parser.permutate {
          spec := spec + [arg];
          return Scan;
        } else {
          ans := ans + [arg];
          return Scan;
        }
      }
    }

    /** `tick_long`: resolve the name before `=` and append the resolved token. */
    method TickLong(arg: string) returns (next: State)
      modifies this`ans, this`warnings
      ensures var o := LongOutcome(parser.optdict, arg);
        ans == old(ans) + [o.token] && warnings == old(warnings) + o.diags && next == o.next
    {
      var i := EqIndex(arg);
      var opt := arg[..i];
      var possibilities := Possibilities(parser.optdict, opt);
      if |possibilities| == 0 {
        warnings := warnings + [UnrecognizedOption(arg)];
        ans := ans + [arg];
        return Scan;
      }
      if |possibilities| > 1 {
        warnings := warnings + [AmbiguousOption(arg, possibilities)];
        ans := ans + [arg];
        return Scan;
      }
      opt := possibilities[0];
      GetFinds(parser.optdict, opt);
      var a := Get(parser.optdict, opt).value;
      if i < |arg| {
        if a == NoArg {
          warnings := warnings + [NotAllowedArgument(opt)];
        }
        ans := ans + [opt + arg[i..]];
        return Scan;
      } else {
        ans := ans + [opt];
        return if a == Required then NeedValue else Scan;
      }
    }

    /** `tick_short`: append the cluster, then scan its flags left to right. */
    method TickShort(arg: string) returns (next: State)
      requires |arg| > 0
      modifies this`ans, this`warnings
      ensures var o := ShortOutcome(parser.optdict, arg);
        ans == old(ans) + [o.token] && warnings == old(warnings) + o.diags && next == o.next
    {
      var t := parser.optdict;
      ans := ans + [arg];
      ghost var issued: seq<Diag> := [];
      assert issued + ShortScan(t, arg, 1).1 == ShortScan(t, arg, 1).1;
      for j := 1 to |arg|
        invariant ans == old(ans) + [arg]
        invariant warnings == old(warnings) + issued
        invariant ShortScan(t, arg, 1).0 == ShortScan(t, arg, j).0
        invariant ShortScan(t, arg, 1).1 == issued + ShortScan(t, arg, j).1
      {
        var optn := Get(t, ['-', arg[j]]);
        var a: Arity;
        if optn.None? {
          warnings := warnings + [InvalidOption(arg[j])];
          a := NoArg;
        } else {
          a := optn.value;
        }
        if j != |arg| - 1 && a != NoArg {
          return Scan;
        }
        if j == |arg| - 1 && a == Required {
          return NeedValue;
        }
        ShortScanContinues(t, arg, j);
        Associative(issued, FlagWarning(t, arg[j]), ShortScan(t, arg, j + 1).1);
        issued := issued + FlagWarning(t, arg[j]);
      }
      return Scan;
    }
  }

  /**
   * `Parser.parse_args`: the parse runs on its own copy of the arguments and
   * returns the reordered vector; the warnings it issued are returned beside it.
   */
  method ParseArgs(parser: Parser, args: seq<string>) returns (r: seq<string>, warnings: seq<Diag>)
    ensures r == Reorder(parser, args).args
    ensures warnings == Reorder(parser, args).warnings
  {
    var parsing := new Parsing(parser, args);
    r := parsing.ans;
    warnings := parsing.warnings;
  }
}
