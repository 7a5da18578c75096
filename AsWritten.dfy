/**
 * The parse as the code is written. `tick_long` fetches the completion helper as
 * `self.specsibilities`, an attribute `_Parsing` does not have (the helper is
 * `possibilities`), so the first long option met while scanning raises
 * AttributeError out of the parse. Everything else runs as in `Reordering`.
 */
module AsWritten {
  import opened OptionTable
  import opened Reordering

  datatype Raised = AttributeError(name: string)

  datatype Result<T> = Ok(value: T) | Raise(error: Raised)

  const MISSING_HELPER := "specsibilities"

  /** `tick` hands `arg` to `tick_long` in state `st`. */
  predicate ReachesTickLong(st: State, arg: string) {
    st == Scan && arg != "--" && IsLongForm(arg)
  }

  /** The ticking loop of `__post_init__`, with `tick_long` raising as written. */
  function RunAsWritten(p: Parser, xs: seq<string>): Result<Snapshot>
    decreases |xs|
  {
    if xs == [] then Ok(Initial)
    else
      var n := |xs| - 1;
      match RunAsWritten(p, xs[..n])
      case Raise(e) => Raise(e)
      case Ok(s) =>
        if ReachesTickLong(s.state, xs[n]) then Raise(AttributeError(MISSING_HELPER))
        else Ok(Step(p, s, xs[n]))
  }

  /** Where the written parse does not raise, it computes the intended parse. */
  lemma {:induction false} AsWrittenAgrees(p: Parser, xs: seq<string>)
    ensures RunAsWritten(p, xs).Ok? ==> RunAsWritten(p, xs).value == Run(p, xs)
    ensures RunAsWritten(p, xs).Raise? ==> RunAsWritten(p, xs).error == AttributeError(MISSING_HELPER)
    decreases |xs|
  {
    if xs != [] {
      AsWrittenAgrees(p, xs[..|xs| - 1]);
    }
  }

  /** Once raised, the exception ends the parse whatever follows. */
  lemma {:induction false} RaiseAbsorbs(p: Parser, xs: seq<string>, ys: seq<string>)
    requires RunAsWritten(p, xs).Raise?
    ensures RunAsWritten(p, xs + ys) == RunAsWritten(p, xs)
    decreases |ys|
  {
    if ys == [] {
      assert xs + ys == xs;
    } else {
      var m := |ys| - 1;
      RaiseAbsorbs(p, xs, ys[..m]);
      assert (xs + ys)[..|xs + ys| - 1] == xs + ys[..m];
    }
  }

  /**
   * Any long option that the intended parse would complete, reached while
   * scanning, makes the written parse raise instead of producing a result.
   */
  lemma LongOptionRaises(p: Parser, pre: seq<string>, arg: string, post: seq<string>)
    requires Run(p, pre).state == Scan && arg != "--" && IsLongForm(arg)
    ensures RunAsWritten(p, pre + [arg] + post) == Raise(AttributeError(MISSING_HELPER))
  {
    AsWrittenAgrees(p, pre);
    assert (pre + [arg])[..|pre|] == pre;
    if RunAsWritten(p, pre).Raise? {
      RaiseAbsorbs(p, pre, [arg]);
    }
    RaiseAbsorbs(p, pre + [arg], post);
  }

  /** The smallest witness: `--verbose` alone, with `--verbose` registered, raises. */
  lemma VerboseRaises()
    ensures RunAsWritten(Parser([("--verbose", NoArg)], "prog", true, true, false), ["--verbose"]).Raise?
  {
    LongOptionRaises(Parser([("--verbose", NoArg)], "prog", true, true, false), [], "--verbose", []);
    assert [] + ["--verbose"] + [] == ["--verbose"];
  }
}
