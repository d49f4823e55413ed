/** tools/factory_state.py: the label that says what every published build was made from. */
module FactoryState {
  import opened Common

  type Name = string
  type Digest = string

  /** `inputs`: digest of each published build. `failed`: digest of each latest attempt that failed. */
  datatype State = State(inputs: map<Name, Digest>, failed: map<Name, Digest>)

  const EMPTY := State(map[], map[])

  /** `KeyError`: a replaced package the inventory does not know. */
  datatype Result<+T> = Ok(value: T) | KeyError(name: Name)

  function Get(m: map<Name, Digest>, n: Name): Option<Digest> {
    if n in m then Some(m[n]) else None
  }

  // ------------------------------------------------------------------- changed

  function Moved(state: State, digests: map<Name, Digest>): set<Name> {
    set n | n in digests && Get(state.inputs, n) != Some(digests[n])
  }

  function Failing(state: State, digests: map<Name, Digest>): set<Name> {
    set n | n in state.failed && n in digests
  }

  /** Moved packages whose last attempt at this very digest failed. */
  function KnownFailures(state: State, digests: map<Name, Digest>): set<Name> {
    set n | n in Moved(state, digests) && Get(state.failed, n) == Some(digests[n])
  }

  /** `(changed, held)` */
  function Changed(state: State, digests: map<Name, Digest>, retryFailed: bool): (set<Name>, set<Name>) {
    if retryFailed then (Moved(state, digests) + Failing(state, digests), {})
    else (Moved(state, digests) - KnownFailures(state, digests), KnownFailures(state, digests))
  }

  // --------------------------------------------------------------------- merge

  /** Where `merge` gets a package's entry in `inputs` from. */
  ghost predicate Recorded(seed: State, trusted: set<Name>, replaced: set<Name>, pruned: set<Name>, n: Name) {
    n !in pruned && (n in replaced || n in seed.inputs || n in trusted)
  }

  ghost predicate StillFailing(seed: State, replaced: set<Name>, failed: set<Name>, pruned: set<Name>, n: Name) {
    n !in pruned && (n in failed || (n in seed.failed && n !in replaced))
  }

  ghost predicate IsMergedInputs(seed: State, digests: map<Name, Digest>, trusted: set<Name>, replaced: set<Name>,
                                 pruned: set<Name>, inputs: map<Name, Digest>) {
    && (forall n :: n in inputs <==> n in digests && Recorded(seed, trusted, replaced, pruned, n))
    && (forall n | n in inputs ::
        inputs[n] == if n in replaced || n !in seed.inputs then digests[n] else seed.inputs[n])
  }

  ghost predicate IsMergedFailed(seed: State, digests: map<Name, Digest>, replaced: set<Name>, failed: set<Name>,
                                 pruned: set<Name>, failures: map<Name, Digest>) {
    && (forall n :: n in failures <==> n in digests && StillFailing(seed, replaced, failed, pruned, n))
    && (forall n | n in failures :: failures[n] == if n in failed then digests[n] else seed.failed[n])
  }

  /** `result` is the label a publication leaves on top of `seed`. */
  ghost predicate IsMerge(seed: State, digests: map<Name, Digest>, trusted: set<Name>, replaced: set<Name>,
                          failed: set<Name>, pruned: set<Name>, result: State) {
    && IsMergedInputs(seed, digests, trusted, replaced, pruned, result.inputs)
    && IsMergedFailed(seed, digests, replaced, failed, pruned, result.failed)
  }

  /** The label as a function of what went in. */
  function Merged(seed: State, digests: map<Name, Digest>, trusted: set<Name>, replaced: set<Name>,
                  failed: set<Name>, pruned: set<Name>): State {
    State(
      map n | n in digests && n !in pruned && (n in replaced || n in seed.inputs || n in trusted) ::
        if n in replaced || n !in seed.inputs then digests[n] else seed.inputs[n],
      map n | n in digests && n !in pruned && (n in failed || (n in seed.failed && n !in replaced)) ::
        if n in failed then digests[n] else seed.failed[n])
  }

  lemma MergedIsMerge(seed: State, digests: map<Name, Digest>, trusted: set<Name>, replaced: set<Name>,
                      failed: set<Name>, pruned: set<Name>)
    ensures IsMerge(seed, digests, trusted, replaced, failed, pruned,
        Merged(seed, digests, trusted, replaced, failed, pruned))
  {
  }

  /** The label is determined. */
  lemma MergeUnique(seed: State, digests: map<Name, Digest>, trusted: set<Name>, replaced: set<Name>,
                    failed: set<Name>, pruned: set<Name>, a: State, b: State)
    requires IsMerge(seed, digests, trusted, replaced, failed, pruned, a)
    requires IsMerge(seed, digests, trusted, replaced, failed, pruned, b)
    ensures a == b
  {
    assert a.inputs.Keys == b.inputs.Keys && a.failed.Keys == b.failed.Keys;
  }

  /** `inputs.setdefault(name, digests[name])` for every trusted name */
  method Default(inputs0: map<Name, Digest>, digests: map<Name, Digest>, trusted: seq<Name>)
    returns (inputs: map<Name, Digest>)
    ensures forall n :: n in inputs <==> n in inputs0 || (n in digests && n in trusted)
    ensures forall n | n in inputs :: inputs[n] == if n in inputs0 then inputs0[n] else digests[n]
  {
    inputs := inputs0;
    for i := 0 to |trusted|
      invariant forall n :: n in inputs <==> n in inputs0 || (n in digests && n in trusted[..i])
      invariant forall n | n in inputs :: inputs[n] == if n in inputs0 then inputs0[n] else digests[n]
    {
      var name := trusted[i];
      if name in digests && name !in inputs {
        inputs := inputs[name := digests[name]];
      }
    }
    assert trusted[..|trusted|] == trusted;
  }

  /** `inputs[name] = digests[name]` for every replaced name */
  method Replace(inputs0: map<Name, Digest>, digests: map<Name, Digest>, replaced: seq<Name>)
    returns (inputs: Result<map<Name, Digest>>)
    ensures inputs.Ok? <==> Elements(replaced) <= digests.Keys
    ensures inputs.Ok? ==> forall n :: n in inputs.value <==> n in inputs0 || n in replaced
    ensures inputs.Ok? ==>
        forall n | n in inputs.value :: inputs.value[n] == if n in replaced then digests[n] else inputs0[n]
  {
    var m := inputs0;
    for i := 0 to |replaced|
      invariant forall j | 0 <= j < i :: replaced[j] in digests
      invariant forall n :: n in m <==> n in inputs0 || n in replaced[..i]
      invariant forall n | n in m :: m[n] == if n in replaced[..i] then digests[n] else inputs0[n]
    {
      var name := replaced[i];
      if name !in digests {
        assert name in Elements(replaced);
        return KeyError(name);
      }
      m := m[name := digests[name]];
    }
    assert replaced[..|replaced|] == replaced;
    inputs := Ok(m);
  }

  /** `m.pop(name, None)` for every name */
  method PopAll(m0: map<Name, Digest>, names: seq<Name>) returns (m: map<Name, Digest>)
    ensures m == m0 - Elements(names)
  {
    m := m0;
    for i := 0 to |names|
      invariant m == m0 - Elements(names[..i])
    {
      m := m - {names[i]};
      assert Elements(names[..i + 1]) == Elements(names[..i]) + {names[i]};
    }
    assert names[..|names|] == names;
  }

  /** `m[name] = digests[name]` for every failed name the inventory knows */
  method Record(m0: map<Name, Digest>, digests: map<Name, Digest>, failed: seq<Name>) returns (m: map<Name, Digest>)
    ensures forall n :: n in m <==> n in m0 || (n in digests && n in failed)
    ensures forall n | n in m :: m[n] == if n in digests && n in failed then digests[n] else m0[n]
  {
    m := m0;
    for i := 0 to |failed|
      invariant forall n :: n in m <==> n in m0 || (n in digests && n in failed[..i])
      invariant forall n | n in m :: m[n] == if n in digests && n in failed[..i] then digests[n] else m0[n]
    {
      var name := failed[i];
      assert failed[..i + 1] == failed[..i] + [name];
      if name in digests {
        m := m[name := digests[name]];
      }
    }
    assert failed[..|failed|] == failed;
  }

  method MergeInputs(seed: State, digests: map<Name, Digest>, trusted: seq<Name>, replaced: seq<Name>,
                     pruned: seq<Name>)
    returns (result: Result<map<Name, Digest>>)
    ensures result.Ok? <==> Elements(replaced) <= digests.Keys
    ensures result.Ok? ==>
        IsMergedInputs(seed, digests, Elements(trusted), Elements(replaced), Elements(pruned), result.value)
  {
    var defaults := Default(seed.inputs, digests, trusted);
    var written := Replace(defaults, digests, replaced);
    if written.KeyError? {
      return KeyError(written.name);
    }
    var inputs := PopAll(written.value, pruned);
    var known := map n | n in inputs && n in digests :: inputs[n];
    forall n ensures n in known <==>
        n in digests && Recorded(seed, Elements(trusted), Elements(replaced), Elements(pruned), n) {}
    result := Ok(known);
  }

  method MergeFailed(seed: State, digests: map<Name, Digest>, replaced: seq<Name>, failed: seq<Name>, pruned: seq<Name>)
    returns (known: map<Name, Digest>)
    ensures IsMergedFailed(seed, digests, Elements(replaced), Elements(failed), Elements(pruned), known)
  {
    var kept := PopAll(seed.failed, replaced);
    var recorded := Record(kept, digests, failed);
    var failures := PopAll(recorded, pruned);
    known := map n | n in failures && n in digests :: failures[n];
    forall n ensures n in known <==>
        n in digests && StillFailing(seed, Elements(replaced), Elements(failed), Elements(pruned), n) {}
  }

  /** `merge`: the label of the image a publication is about to push. */
  method Merge(seed: Option<State>, digests: map<Name, Digest>, trusted: seq<Name>, replaced: seq<Name>,
               failed: seq<Name>, pruned: seq<Name>) returns (result: Result<State>)
    ensures result.Ok? <==> Elements(replaced) <= digests.Keys
    ensures result.Ok? ==> IsMerge(if seed.Some? then seed.value else EMPTY, digests, Elements(trusted),
                                   Elements(replaced), Elements(failed), Elements(pruned), result.value)
  {
    hide IsMergedInputs, IsMergedFailed;
    var base := if seed.Some? then seed.value else EMPTY;
    var inputs := MergeInputs(base, digests, trusted, replaced, pruned);
    if inputs.KeyError? {
      return KeyError(inputs.name);
    }
    var failures := MergeFailed(base, digests, replaced, failed, pruned);
    result := Ok(State(inputs.value, failures));
  }
}
