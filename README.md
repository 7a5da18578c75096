# getoptify argument reordering, in Dafny

getoptify rewrites a command line into GNU `getopt` canonical order before a
host command parser sees it. It moves recognised options and their values to
the front and operands to the back. It is meant to complete abbreviated long
options and to report malformed input as warnings instead of failing. As
written, though, every long option met while scanning raises `AttributeError`
(see Findings), so for long options it does neither. This project models the
engine, `_Parsing` in `src/getoptify/core/__init__.py`, with that call
corrected, proves what the corrected engine guarantees, and models the
as-written long-option path separately.

- `OptionTable.dfy`: the option table (`Parser.optdict`). It is a sequence of
  `(token, Arity)` pairs with distinct keys, in insertion order, because that
  order fixes the order in which ambiguity candidates are listed. It holds
  `optdict.get` and `possibilities` (unique-prefix completion).
- `Diagnostics.dfy`: one event per warning method of `Parser`.
- `Reordering.dfy`: the state machine as functions. It defines one tick
  (`TickOutcome`, `LongOutcome`, `ShortScan`), the ticking loop as a left fold
  (`Run`), and the finished parse (`Reorder`). The state `optn` is `Scan` (0),
  `NeedValue` (1) or `Break` (`"break"`).
- `Parsing.dfy`: `_Parsing` as a class. It has the fields `args`, `ans`, `spec`
  and a warning log. The constructor is `__post_init__`; its `while self.args` loop is the
  method `Drain`. The methods `Tick`, `TickLong` and `TickShort` change these
  fields in place. Each one is proved equal to its function in `Reordering`.
  `ParseArgs` is `Parser.parse_args`.
- `ReorderingFacts.dfy`: what a parse guarantees. The output has the input's
  length and is `ans` followed by `spec`. Each list is an order-preserving
  subsequence of the rewritten input, and the output is a permutation of it.
  Input already in canonical order comes back unchanged, apart from long-option
  completion.
  The file also covers the `--` terminator, POSIX mode, permutation and
  in-place mode, the missing-value warning, long-option completion and
  short clusters.
- `AsWritten.dfy`: the long-option path as the code is written (see Findings).
- `Seqs.dfy`: order-preserving subsequences.

The model follows three decisions the code makes:

- A long name that is itself a key resolves to that key alone, even when it is
  also a prefix of other keys (`possibilities`, lines 136-137).
- Ambiguity candidates are listed in table order, never in lexical order.
- A long option of arity 2 yields state 2, which every later test treats as
  state 0. The model maps it to `Scan`.

## Model

| member | source | states |
|---|---|---|
| OptionTable.GetFinds | src/getoptify/core/__init__.py:200-203 | `optdict.get` finds an arity exactly for registered keys, and that arity is registered |
| OptionTable.GetRegistered | src/getoptify/core/__init__.py:189-195 | in a table with distinct keys, looking up a registered key gives its registered arity |
| OptionTable.PrefixMatches | src/getoptify/core/__init__.py:138-142 | the collected keys are exactly the keys starting with the candidate, in table order |
| OptionTable.Possibilities | src/getoptify/core/__init__.py:135-142 | every possibility is a key extending the name; a registered name gives only itself; otherwise every extending key is listed, in table order |
| OptionTable.PrefixMatchesSingle | src/getoptify/core/__init__.py:138-142 | when exactly one entry starts with the name, it is the only match |
| OptionTable.PrefixMatchesNone | src/getoptify/core/__init__.py:138-142 | when no entry starts with the name, there is no match |
| OptionTable.UniqueAbbreviation | src/getoptify/core/__init__.py:135-142 | a name that starts exactly one key resolves to that key alone |
| OptionTable.AmbiguousAbbreviation | src/getoptify/core/__init__.py:135-142 | an unregistered name starting two distinct keys gives more than one possibility, both keys among them |
| Reordering.EqIndex | src/getoptify/core/__init__.py:173-176 | the split point is the first `=`, or the token's length when it has none |
| Reordering.LongOutcome | src/getoptify/core/__init__.py:172-195 | a long token goes to `ans` verbatim or as a full key extending its name plus the same `=value`; it never stops scanning, gives at most one warning, and asks for a value only for a required-argument key with no `=` |
| Reordering.ShortScan | src/getoptify/core/__init__.py:199-208 | a cluster scan never stops option scanning |
| Reordering.ShortScanWarnings | src/getoptify/core/__init__.py:199-203 | each warning of a cluster scan is an invalid-option warning for an unknown flag of the cluster |
| Reordering.TickOutcome | src/getoptify/core/__init__.py:144-170 | a token goes to `spec` exactly after a break, or for an operand in POSIX or permuting mode; scanning stops exactly on `--` or on a POSIX operand; only an option token asks for a value; only a long option is rewritten; only an option token is warned about |
| Reordering.Run | src/getoptify/core/__init__.py:125-130 | each tick consumes one token and appends one string, so the lists together are as long as the input; a value is due only when `ans` is non-empty |
| Reordering.Reorder | src/getoptify/core/__init__.py:125-133 | the result has exactly as many tokens as the input |
| Parsing.Parsing.constructor | src/getoptify/core/__init__.py:125-133 | ticking until the working copy is empty leaves `ans` equal to the whole reordered result and the warning log equal to that of the parse |
| Parsing.Parsing.Drain | src/getoptify/core/__init__.py:127-130 | ticking from the initial state until the working copy is empty leaves the fields and `optn` exactly as the left fold of one step per input token |
| Parsing.Parsing.Tick | src/getoptify/core/__init__.py:144-170 | pops the first token and changes `ans`, `spec`, the state and the warnings exactly as one step of the parse |
| Parsing.Parsing.TickLong | src/getoptify/core/__init__.py:172-195 | appends the long outcome's token and warnings and returns its next state |
| Parsing.Parsing.TickShort | src/getoptify/core/__init__.py:197-208 | appends the cluster, issues the cluster's warnings in order, and returns the cluster's next state, leaving the loop early exactly where the scan stops |
| Parsing.ParseArgs | src/getoptify/core/__init__.py:90-96 | returns the reordered vector and the warnings of a parse of its own copy of the arguments |
| ReorderingFacts.RunFollowsTrace | src/getoptify/core/__init__.py:145-170 | `ans` and `spec` are exactly the tick tokens sent to each list, in input order |
| ReorderingFacts.SelectIsSubsequence | src/getoptify/core/__init__.py:145-170 | the tokens sent to one list form an order-preserving subsequence of all tick tokens |
| ReorderingFacts.SelectPartitions | src/getoptify/core/__init__.py:145-170 | every tick token lands in exactly one of the two lists |
| ReorderingFacts.ReorderIsOrderedPartition | src/getoptify/core/__init__.py:125-133 | the output has the input's length; `ans` and `spec` each keep the rewritten input's order; the output is a permutation of the rewritten input |
| ReorderingFacts.OnlyLongOptionsRewritten | src/getoptify/core/__init__.py:144-195 | a token comes out unchanged unless it is a long option other than `--` met while scanning |
| ReorderingFacts.PermutationOfInput | src/getoptify/core/__init__.py:125-170 | with no long options in the input, the output is a permutation of the input |
| ReorderingFacts.BreakAbsorbsRest | src/getoptify/core/__init__.py:146-148 | once scanning has stopped, every further token is appended to `spec` unchanged, with no warning, and the state stays stopped |
| ReorderingFacts.TerminatorEndsScanning | src/getoptify/core/__init__.py:152-154 | a bare `--` met while scanning stays in `ans`, and everything after it follows the deferred operands verbatim |
| ReorderingFacts.PosixOperandEndsScanning | src/getoptify/core/__init__.py:161-164 | in POSIX mode the first operand met while scanning is deferred and ends scanning; it and everything after it follow the deferred operands verbatim |
| ReorderingFacts.OrderedSelect | src/getoptify/core/__init__.py:133 | when no token sent to `spec` precedes one sent to `ans`, `ans` followed by `spec` is every tick token in order |
| ReorderingFacts.CanonicalUnchanged | src/getoptify/core/__init__.py:125-170 | input already in canonical order (no deferred token before a kept one) comes back unchanged apart from long-option completion |
| ReorderingFacts.InPlaceRun | src/getoptify/core/__init__.py:165-170 | without POSIX mode and without permutation, `spec` stays empty until scanning stops, and `ans ++ spec` is the rewritten input |
| ReorderingFacts.NoPermutationKeepsOrder | src/getoptify/core/__init__.py:165-170 | without POSIX mode and without permutation, the output is the rewritten input in its own order |
| ReorderingFacts.RequiredValueVerbatim | src/getoptify/core/__init__.py:149-151 | the token after a required-argument option goes to `ans` verbatim, whatever its shape (even `--`), and scanning resumes |
| ReorderingFacts.MissingValueWarning | src/getoptify/core/__init__.py:131-132 | one more warning is issued exactly when the input ends while a value is due; it names the option the last tick appended, and the last input token is an option token |
| ReorderingFacts.LongResolves | src/getoptify/core/__init__.py:187-195 | a name that is a key, or abbreviates exactly one key, is emitted as that key plus any `=value`; a value is due only for a required key without `=`; an argument attached to a no-argument key is warned about |
| ReorderingFacts.LongUnrecognized | src/getoptify/core/__init__.py:179-182 | a name that starts no key is emitted verbatim with one unrecognized-option warning |
| ReorderingFacts.LongAmbiguous | src/getoptify/core/__init__.py:183-186 | an unregistered name starting two keys is emitted verbatim with one ambiguity warning whose candidates are exactly the keys extending the name, in table order |
| ReorderingFacts.ShortScanThrough | src/getoptify/core/__init__.py:199-205 | flags taking no argument pass the scan on without changing how it ends |
| ReorderingFacts.ShortWarningsThrough | src/getoptify/core/__init__.py:199-205 | flags taking no argument each add their own warning, in order, when unknown |
| ReorderingFacts.ShortCluster | src/getoptify/core/__init__.py:197-208 | a cluster is decided by its first flag with an argument, or by its last flag; a non-final flag with an argument swallows the rest unexamined; only a final required flag asks for the next token; every unknown flag up to that point is warned about, in order |
| ReorderingFacts.FlagWarningsAppend | src/getoptify/core/__init__.py:199-203 | the warnings for a run of flags are those of its prefix followed by those of its last flag |
| ReorderingFacts.ShortNeedsValueFrom | src/getoptify/core/__init__.py:204-208 | from any position, the scan asks for a value exactly when the remaining non-final flags take no argument and the last flag requires one |
| ReorderingFacts.ShortNeedsValue | src/getoptify/core/__init__.py:197-208 | a cluster asks for the next token exactly when every flag but the last takes no argument and the last requires one |
| AsWritten.AsWrittenAgrees | src/getoptify/core/__init__.py:172-178 | where the parse as written does not raise, it equals the intended parse; where it raises, the error is the missing `specsibilities` attribute |
| AsWritten.RaiseAbsorbs | src/getoptify/core/__init__.py:128-130 | an exception raised by a tick ends the parse whatever follows |
| AsWritten.LongOptionRaises | src/getoptify/core/__init__.py:178 | as written, any long option other than `--` reached while scanning makes the parse raise |
| AsWritten.VerboseRaises | src/getoptify/core/__init__.py:178 | as written, `["--verbose"]` with `--verbose` registered raises |

## Findings

| source | as written | input that shows it | evidently intended | confidence | as-written member | corrected member |
|---|---|---|---|---|---|---|
| src/getoptify/core/__init__.py:178 | `tick_long` calls `self.specsibilities(opt)`, which `_Parsing` does not define, so it raises AttributeError | `["--verbose"]` with `--verbose` registered (any long option reached while scanning) | call `possibilities(opt)` (line 135) and complete the name | high; not executed | AsWritten.LongOptionRaises | ReorderingFacts.LongResolves |

The rest of the model uses the corrected `Reordering.LongOutcome`.

## Left out

- `Parser.clickBind` (lines 36-69) is left out. It picks an adapter by the runtime kind of its target and relies on the external `makefunc` decorator and `functools.wraps`; no reordering happens there.
- `Parser.clickReflect` (lines 71-85) is left out. It reads `click.Option` attributes from a library that is not part of this model. The option table is an input here, and the clear-then-update is a wholesale replacement of it.
- `Parser.__post_init__` defaults (lines 28-34) are left out. They read `sys.argv[0]` and the `POSIXLY_CORRECT` environment variable. `prog` and `posix` are plain fields of `Parser`.
- `posix` is a `bool`. The source tests the truthiness of whatever the environment gave (a string or `None`).
- `deabbreviate` is a field that nothing reads, as in the source. Prefix completion always happens.
- `Parser.parse_args` falling back to `sys.argv[1:]` (line 92) is left out because it is process I/O. The arguments are a `seq<string>`, a value. So the copy `list(args)` and the copy of the parser are implicit, and the caller's sequence cannot change.
- `Parser.warn` and the message methods (lines 98-117) are left out. The message text, the program-name prefix and `warnings.warn` are not modelled. Each call is a `Diag` event appended to a log, which `ParseArgs` returns.
- Arity values other than 0, 1 and 2 are left out. A Python dictionary may hold any value; the model's `Arity` has exactly the three the source names.
- `Reordering.ShortOutcome` has no contract of its own. What it does is stated by `ShortScan` and by the cluster lemmas in `ReorderingFacts`.
- `src/getoptify/tests/__init__.py` only runs unittest discovery and holds no assertions, so there is nothing to model.
