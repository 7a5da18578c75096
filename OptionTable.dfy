/**
 * The option table of a parser (`Parser.optdict`): every option token it knows,
 * with its leading dash or dashes (`-o`, `--verbose`), mapped to the option's arity.
 */
module OptionTable {
  import opened Seqs

  /** How many values an option takes; 0, 1 and 2 in the source. */
  datatype Arity = NoArg | Required | Optional

  datatype Option<T> = None | Some(value: T)

  /** Table entries in insertion order, the order in which a dictionary yields its keys. */
  type Entries = seq<(string, Arity)>

  predicate UniqueKeys(t: Entries) {
    forall i, j :: 0 <= i < j < |t| ==> t[i].0 != t[j].0
  }

  /** A dictionary: entries whose keys are pairwise distinct. */
  type OptDict = t: Entries | UniqueKeys(t) witness []

  function Keys(t: Entries): seq<string> {
    seq(|t|, i requires 0 <= i < |t| => t[i].0)
  }

  /** `optdict.get(key)`: the arity registered for `key`, or nothing. */
  function Get(t: Entries, key: string): Option<Arity>
    decreases |t|
  {
    if t == [] then None
    else if t[|t| - 1].0 == key then Some(t[|t| - 1].1)
    else Get(t[..|t| - 1], key)
  }

  /** `Get` finds an arity exactly for the registered keys, and the arity it finds is registered. */
  lemma {:induction false} GetFinds(t: Entries, key: string)
    ensures Get(t, key).None? <==> key !in Keys(t)
    ensures Get(t, key).Some? ==> (key, Get(t, key).value) in t
    decreases |t|
  {
    if t != [] {
      var n := |t| - 1;
      assert Keys(t) == Keys(t[..n]) + [t[n].0];
      GetFinds(t[..n], key);
    }
  }

  /** In a dictionary, `Get` finds exactly the registered arity. */
  lemma {:induction false} GetRegistered(t: OptDict, key: string, a: Arity)
    requires (key, a) in t
    ensures Get(t, key) == Some(a)
    decreases |t|
  {
    var n := |t| - 1;
    assert Keys(t) == Keys(t[..n]) + [t[n].0];
    if t[n] != (key, a) {
      var i :| 0 <= i < |t| && t[i] == (key, a);
      assert t[..n][i] == (key, a);
      assert t[n].0 != key;
      GetRegistered(t[..n], key, a);
    }
  }

  /** The keys of `t` that start with `opt`, in table order. */
  function PrefixMatches(t: Entries, opt: string): (r: seq<string>)
    ensures forall k :: k in r <==> k in Keys(t) && opt <= k
    ensures IsSubsequence(r, Keys(t))
    decreases |t|
  {
    if t == [] then []
    else
      var n := |t| - 1;
      var prev := PrefixMatches(t[..n], opt);
      assert Keys(t) == Keys(t[..n]) + [t[n].0];
      if opt <= t[n].0 then
        ExtendBoth(prev, Keys(t[..n]), t[n].0);
        prev + [t[n].0]
      else
        ExtendRight(prev, Keys(t[..n]), t[n].0);
        prev
  }

  /** When exactly one entry starts with `opt`, that entry's key is the only match. */
  lemma {:induction false} PrefixMatchesSingle(t: Entries, opt: string, i: nat)
    requires i < |t| && opt <= t[i].0
    requires forall j :: 0 <= j < |t| && j != i ==> !(opt <= t[j].0)
    ensures PrefixMatches(t, opt) == [t[i].0]
    decreases |t|
  {
    var n := |t| - 1;
    if i < n {
      PrefixMatchesSingle(t[..n], opt, i);
    } else {
      PrefixMatchesNone(t[..n], opt);
    }
  }

  /** No entry starts with `opt`: there is no match. */
  lemma {:induction false} PrefixMatchesNone(t: Entries, opt: string)
    requires forall j :: 0 <= j < |t| ==> !(opt <= t[j].0)
    ensures PrefixMatches(t, opt) == []
    decreases |t|
  {
    if t != [] {
      PrefixMatchesNone(t[..|t| - 1], opt);
    }
  }

  /**
   * `_Parsing.possibilities`: the key itself when `opt` is registered, otherwise
   * every key that has `opt` as a prefix, in table order.
   */
  function Possibilities(t: Entries, opt: string): (r: seq<string>)
    ensures forall k :: k in r ==> k in Keys(t) && opt <= k
    ensures opt in Keys(t) ==> r == [opt]
    ensures opt !in Keys(t) ==> (forall k :: k in Keys(t) && opt <= k ==> k in r) && IsSubsequence(r, Keys(t))
  {
    if opt in Keys(t) then [opt] else PrefixMatches(t, opt)
  }

  /**
   * Unique-prefix completion: an abbreviation that starts exactly one key
   * of the table resolves to that key alone.
   */
  lemma UniqueAbbreviation(t: Entries, opt: string, i: nat)
    requires i < |t| && opt <= t[i].0
    requires forall j :: 0 <= j < |t| && j != i ==> !(opt <= t[j].0)
    ensures Possibilities(t, opt) == [t[i].0]
  {
    PrefixMatchesSingle(t, opt, i);
  }

  /**
   * An unregistered abbreviation that starts two different keys is ambiguous:
   * there are at least two possibilities and both keys are among them.
   */
  lemma AmbiguousAbbreviation(t: OptDict, opt: string, i: nat, j: nat)
    requires i < j < |t| && opt <= t[i].0 && opt <= t[j].0
    requires opt !in Keys(t)
    ensures var r := Possibilities(t, opt); |r| > 1 && t[i].0 in r && t[j].0 in r
  {
    var r := Possibilities(t, opt);
    assert Keys(t)[i] == t[i].0 && Keys(t)[j] == t[j].0;
    assert t[i].0 in r && t[j].0 in r;
  }
}
