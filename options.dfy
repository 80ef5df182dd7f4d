/**
 * `getOpts` of modules/__init__.py: the options getopt recognised are
 * appended, in command-line order, to a dict of lists seeded with default
 * values, and the mandatory option names are checked against the dict.
 * getopt itself is not part of this model: its outcome is an input, None
 * when it raises GetoptError.
 */
module Options {
  import opened Common

  /** An option as getopt reports it: its name ("-h", "--bits") and value. */
  type Opt = (string, string)

  /** The dict `optsMap`: option name to the list of its values. */
  class OptionMap {
    var entries: map<string, seq<string>>

    constructor(defaults: map<string, seq<string>>)
      ensures entries == defaults
    {
      entries := defaults;
    }
  }

  /** The values stored under `c`; none when `c` is not a key. */
  function Values(m: map<string, seq<string>>, c: string): seq<string> {
    if c in m then m[c] else []
  }

  /** The dict after appending every parsed option in order. */
  function Folded(m: map<string, seq<string>>, opts: seq<Opt>): map<string, seq<string>>
    decreases |opts|
  {
    if opts == [] then m
    else Folded(m[opts[0].0 := Values(m, opts[0].0) + [opts[0].1]], opts[1..])
  }

  /** The values given to option `c` on the command line, in order. */
  function Given(opts: seq<Opt>, c: string): seq<string>
    decreases |opts|
  {
    if opts == [] then []
    else (if opts[0].0 == c then [opts[0].1] else []) + Given(opts[1..], c)
  }

  predicate AllPresent(m: map<string, seq<string>>, mandatory: seq<string>) {
    forall k :: 0 <= k < |mandatory| ==> mandatory[k] in m
  }

  /** `getOpts(argv, shortopts, longopts, mandatory, optsMap)`, with the
      getopt outcome as `parsed`. The dict passed in is the one returned,
      updated in place. */
  method GetOpts(parsed: Option<seq<Opt>>, mandatory: seq<string>, optsMap: OptionMap)
    returns (valid: bool, result: OptionMap)
    modifies optsMap
    ensures result == optsMap
    ensures parsed.None? ==> !valid && optsMap.entries == old(optsMap.entries)
    ensures parsed.Some? ==> (optsMap.entries == Folded(old(optsMap.entries), parsed.value) &&
      valid == AllPresent(optsMap.entries, mandatory))
  {
    result := optsMap;
    if parsed.None? {
      return false, result;
    }
    var opts := parsed.value;
    ghost var m0 := optsMap.entries;
    var i := 0;
    while i < |opts|
      invariant 0 <= i <= |opts|
      invariant Folded(m0, opts) == Folded(optsMap.entries, opts[i..])
    {
      assert opts[i..][1..] == opts[i + 1..];
      var (c, a) := opts[i];
      ghost var before := optsMap.entries;
      if c !in optsMap.entries {
        optsMap.entries := optsMap.entries[c := []];
      }
      optsMap.entries := optsMap.entries[c := optsMap.entries[c] + [a]];
      assert optsMap.entries == before[c := Values(before, c) + [a]];
      i := i + 1;
    }
    assert opts[i..] == [];
    valid := true;
    var j := 0;
    while j < |mandatory|
      invariant 0 <= j <= |mandatory|
      invariant valid == AllPresent(optsMap.entries, mandatory[..j])
    {
      assert forall k :: 0 <= k < j ==> mandatory[..j + 1][k] == mandatory[..j][k];
      if mandatory[j] !in optsMap.entries {
        valid := false;
      }
      j := j + 1;
    }
    assert mandatory[..j] == mandatory;
  }

  /** Each option's list is its default values followed by the values given
      on the command line, in command-line order. */
  lemma {:induction false} FoldedValues(m: map<string, seq<string>>, opts: seq<Opt>, c: string)
    ensures Values(Folded(m, opts), c) == Values(m, c) + Given(opts, c)
    decreases |opts|
  {
    if opts != [] {
      var m1 := m[opts[0].0 := Values(m, opts[0].0) + [opts[0].1]];
      FoldedValues(m1, opts[1..], c);
    }
  }

  /** An option was given on the command line iff some parsed pair names it. */
  lemma {:induction false} GivenNamed(opts: seq<Opt>, c: string)
    ensures Given(opts, c) != [] <==> exists i :: 0 <= i < |opts| && opts[i].0 == c
    decreases |opts|
  {
    if opts != [] {
      GivenNamed(opts[1..], c);
      if exists i :: 0 <= i < |opts[1..]| && opts[1..][i].0 == c {
        var i :| 0 <= i < |opts[1..]| && opts[1..][i].0 == c;
        assert opts[i + 1].0 == c;
      }
      if exists i :: 0 <= i < |opts| && opts[i].0 == c {
        var i :| 0 <= i < |opts| && opts[i].0 == c;
        if i > 0 {
          assert opts[1..][i - 1].0 == c;
        }
      }
    }
  }

  /** The keys of the result are exactly the default keys and the names of
      the parsed options. */
  lemma {:induction false} FoldedKeys(m: map<string, seq<string>>, opts: seq<Opt>, c: string)
    ensures c in Folded(m, opts) <==> c in m || exists i :: 0 <= i < |opts| && opts[i].0 == c
    decreases |opts|
  {
    if opts != [] {
      var m1 := m[opts[0].0 := Values(m, opts[0].0) + [opts[0].1]];
      FoldedKeys(m1, opts[1..], c);
      if exists i :: 0 <= i < |opts[1..]| && opts[1..][i].0 == c {
        var i :| 0 <= i < |opts[1..]| && opts[1..][i].0 == c;
        assert opts[i + 1].0 == c;
      }
      if exists i :: 0 <= i < |opts| && opts[i].0 == c {
        var i :| 0 <= i < |opts| && opts[i].0 == c;
        if i > 0 {
          assert opts[1..][i - 1].0 == c;
        }
      }
    }
  }

  /** The options are valid iff every mandatory name is a default key or
      was given on the command line: defaults count as present. */
  lemma MandatoryCheck(m: map<string, seq<string>>, opts: seq<Opt>, mandatory: seq<string>)
    ensures AllPresent(Folded(m, opts), mandatory) <==>
      forall k :: 0 <= k < |mandatory| ==> mandatory[k] in m || Given(opts, mandatory[k]) != []
  {
    forall k | 0 <= k < |mandatory|
      ensures mandatory[k] in Folded(m, opts) <==> mandatory[k] in m || Given(opts, mandatory[k]) != []
    {
      FoldedKeys(m, opts, mandatory[k]);
      GivenNamed(opts, mandatory[k]);
    }
  }

  /** A non-empty default list keeps its first value first, whatever the
      command line appends after it. */
  lemma FirstValueKept(m: map<string, seq<string>>, opts: seq<Opt>, c: string)
    requires c in m && m[c] != []
    ensures c in Folded(m, opts) && Folded(m, opts)[c] != [] && Folded(m, opts)[c][0] == m[c][0]
  {
    FoldedValues(m, opts, c);
  }

  /** Every key of the result holds at least one value when every default
      list does. */
  lemma NonEmptyLists(m: map<string, seq<string>>, opts: seq<Opt>, c: string)
    requires forall d :: d in m ==> m[d] != []
    requires c in Folded(m, opts)
    ensures Folded(m, opts)[c] != []
  {
    FoldedValues(m, opts, c);
    FoldedKeys(m, opts, c);
    if c !in m {
      GivenNamed(opts, c);
    }
  }
}
