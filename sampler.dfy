/** The outcome sampler (get_logical_op). It walks the probability tree from the root, one
    qubit at a time. At each step it compares the probability stored at the '+' child with a
    uniform draw, then reads the stabilizer and logical-operator values off the resulting ±1
    observables. The draws come from numpy's generator in the source; here they are a parameter,
    one per step. */
module Sampler {
  import opened Outcomes
  import opened Configurations
  import opened ProbabilityTree

  /** `prob_dict[key] > u` as numpy evaluates it: a not-a-number exceeds nothing. */
  predicate Above(p: Prob, u: real)
  {
    p.Num? && p.p > u
  }

  /** The branches get_logical_op takes for the draws `draws`, one step per draw. Step i looks
      up the key of the '+' child of the current node. It fails with KeyError when that key is
      missing, takes '+' when the stored probability is above draw i, and '-' otherwise. A walk
      that succeeds takes one sign per draw. */
  function Walk(tree: map<real, Prob>, n: nat, draws: seq<real>): (r: Result<seq<char>>)
    ensures r.Err? ==> r.error == KeyError
    ensures r.Ok? ==> |r.value| == |draws| && IsSignString(r.value)
  {
    if draws == [] then Ok([])
    else
      match Walk(tree, n, draws[..|draws| - 1])
      case Err(e) => Err(e)
      case Ok(path) =>
        var right := Key(n, path + ['+']);
        if right !in tree then Err(KeyError)
        else if Above(tree[right], draws[|draws| - 1]) then Ok(path + ['+'])
        else Ok(path + ['-'])
  }

  /** The walk over a prefix of the draws is the prefix of the walk. */
  lemma {:induction false} WalkPrefix(tree: map<real, Prob>, n: nat, draws: seq<real>, k: nat)
    requires k <= |draws| && Walk(tree, n, draws).Ok?
    ensures Walk(tree, n, draws[..k]) == Ok(Walk(tree, n, draws).value[..k])
  {
    if k < |draws| {
      var init := draws[..|draws| - 1];
      WalkPrefix(tree, n, init, k);
      assert init[..k] == draws[..k];
      var prev := Walk(tree, n, init).value;
      assert Walk(tree, n, draws).value[..k] == prev[..k];
    } else {
      assert draws[..k] == draws;
      assert Walk(tree, n, draws).value[..k] == Walk(tree, n, draws).value;
    }
  }

  /** Step i of a walk that succeeds goes up exactly when the probability stored at the '+'
      child of the node reached after i steps is above draw i; that key is always present. */
  lemma WalkStep(tree: map<real, Prob>, n: nat, draws: seq<real>, i: nat)
    requires Walk(tree, n, draws).Ok? && i < |draws|
    ensures var path := Walk(tree, n, draws).value;
      Key(n, path[..i] + ['+']) in tree &&
      (path[i] == '+' <==> Above(tree[Key(n, path[..i] + ['+'])], draws[i]))
  {
    var path := Walk(tree, n, draws).value;
    var prefix := path[..i];
    WalkPrefix(tree, n, draws, i + 1);
    WalkPrefix(tree, n, draws, i);
    WalkExtend(tree, n, draws, i + 1, prefix);
    PrefixSnoc(path, i);
    var stepped := Walk(tree, n, draws[..i + 1]).value;
    assert stepped[i] == path[i];
  }

  /** A prefix one longer adds the next element. */
  lemma PrefixSnoc<T>(s: seq<T>, i: nat)
    requires i < |s|
    ensures s[..i + 1] == s[..i] + [s[i]]
  {
  }

  /** Once a prefix of the draws fails, the whole walk fails. */
  lemma {:induction false} WalkPrefixFails(tree: map<real, Prob>, n: nat, draws: seq<real>, k: nat)
    requires k <= |draws| && Walk(tree, n, draws[..k]).Err?
    ensures Walk(tree, n, draws).Err?
    decreases |draws| - k
  {
    if k < |draws| {
      assert draws[..k + 1][..k] == draws[..k];
      WalkPrefixFails(tree, n, draws, k + 1);
    } else {
      assert draws[..k] == draws;
    }
  }

  /** The observables of a walk: 1 for qubit 0 (the input qubit, never sampled), then 1 for each
      '+' step and -1 for each other step. */
  function Observables(path: seq<char>): (obs: seq<int>)
    ensures |obs| == |path| + 1 && obs[0] == 1
    ensures forall i :: 0 <= i < |path| ==> (obs[i + 1] == 1 <==> path[i] == '+')
    ensures forall i :: 0 <= i < |obs| ==> obs[i] == 1 || obs[i] == -1
  {
    [1] + seq(|path|, i requires 0 <= i < |path| => if path[i] == '+' then 1 else -1)
  }

  /** The measured value of a Pauli string: the product of the observables at its non-'I'
      positions. It fails with IndexError at the first such position past the observables. */
  function Parity(obs: seq<int>, pauli: seq<char>): (r: Result<int>)
    ensures r.Err? ==> r.error == IndexError
    ensures r.Ok? && (forall i :: 0 <= i < |obs| ==> obs[i] == 1 || obs[i] == -1) ==>
      r.value == 1 || r.value == -1
  {
    if pauli == [] then Ok(1)
    else
      match Parity(obs, pauli[..|pauli| - 1])
      case Err(e) => Err(e)
      case Ok(s) =>
        var i := |pauli| - 1;
        if pauli[i] == 'I' then Ok(s)
        else if i >= |obs| then Err(IndexError)
        else Ok(s * obs[i])
  }

  /** The number of non-'I' positions of `pauli` whose observable is -1. */
  function Flips(obs: seq<int>, pauli: seq<char>): nat
  {
    if pauli == [] then 0
    else
      var i := |pauli| - 1;
      Flips(obs, pauli[..i]) + (if pauli[i] != 'I' && i < |obs| && obs[i] == -1 then 1 else 0)
  }

  /** Parity fails exactly when some non-'I' position lies past the observables, and then with
      IndexError. Otherwise, with ±1 observables, it is +1 for an even number of -1 observables
      under non-'I' positions and -1 for an odd number. A string of 'I's measures +1. */
  lemma {:induction false} ParityFacts(obs: seq<int>, pauli: seq<char>)
    ensures Parity(obs, pauli).Err? <==>
      exists i :: 0 <= i < |pauli| && pauli[i] != 'I' && i >= |obs|
    ensures Parity(obs, pauli).Err? ==> Parity(obs, pauli).error == IndexError
    ensures Parity(obs, pauli).Ok? && (forall i :: 0 <= i < |obs| ==> obs[i] == 1 || obs[i] == -1) ==>
      Parity(obs, pauli).value == if Flips(obs, pauli) % 2 == 0 then 1 else -1
    ensures (forall i :: 0 <= i < |pauli| ==> pauli[i] == 'I') ==> Parity(obs, pauli) == Ok(1)
  {
    if pauli != [] {
      var init := pauli[..|pauli| - 1];
      ParityFacts(obs, init);
      assert forall i :: 0 <= i < |init| ==> init[i] == pauli[i];
    }
  }

  /** Parity of a longer prefix, one position at a time, as the source's inner loops compute it. */
  lemma ParityStep(obs: seq<int>, pauli: seq<char>, i: nat)
    requires i < |pauli|
    ensures Parity(obs, pauli[..i + 1]) ==
      match Parity(obs, pauli[..i])
      case Err(e) => Err(e)
      case Ok(s) =>
        if pauli[i] == 'I' then Ok(s) else if i >= |obs| then Err(IndexError) else Ok(s * obs[i])
  {
    assert pauli[..i + 1][..i] == pauli[..i];
  }

  /** One of the source's two measuring loops: multiply the observables at the non-'I'
      positions of `pauli`. */
  method Measure(observables: seq<int>, pauli: seq<char>) returns (r: Result<int>)
    ensures r == Parity(observables, pauli)
  {
    var s := 1;
    for i := 0 to |pauli|
      invariant Parity(observables, pauli[..i]) == Ok(s)
    {
      ParityStep(observables, pauli, i);
      if pauli[i] != 'I' {
        if i >= |observables| {
          ParityFacts(observables, pauli);
          assert pauli[i] != 'I' && i >= |observables|;
          return Parity(observables, pauli);
        }
        s := s * observables[i];
      }
    }
    assert pauli[..|pauli|] == pauli;
    return Ok(s);
  }

  /** Walking one more draw, from the node a prefix of the draws reaches. */
  lemma WalkExtend(tree: map<real, Prob>, n: nat, draws: seq<real>, i: nat, path: seq<char>)
    requires 0 < i <= |draws| && Walk(tree, n, draws[..i - 1]) == Ok(path)
    ensures Walk(tree, n, draws[..i]) ==
      var right := Key(n, path + ['+']);
      if right !in tree then Err(KeyError)
      else if Above(tree[right], draws[i - 1]) then Ok(path + ['+'])
      else Ok(path + ['-'])
  {
    assert draws[..i][..i - 1] == draws[..i - 1];
  }

  /** Setting observable i to the sign of one more branch extends the observables of the path. */
  lemma ObservablesStep(path: seq<char>, c: char, before: seq<int>, after: seq<int>, i: nat)
    requires |path| + 1 == i < |before| && before[..i] == Observables(path) && before[i] == 1
    requires after == before[i := if c == '+' then 1 else -1]
    ensures after[..i + 1] == Observables(path + [c])
  {
  }

  /** The state of the sampling loop after the first `steps` draws: the walk over them reached
      `path`, `value` is that node's key, and the observables so far are those of `path`, the
      rest still 1. */
  ghost predicate Sampled(probDict: map<real, Prob>, n: nat, draws: seq<real>, steps: nat,
                          path: seq<char>, value: real, observables: seq<int>)
  {
    steps <= |draws| && |path| == steps && |observables| == n + 1 && steps < |observables| &&
    Walk(probDict, n, draws[..steps]) == Ok(path) &&
    value == Key(n, path) &&
    observables[..steps + 1] == Observables(path) &&
    forall j :: steps + 1 <= j < |observables| ==> observables[j] == 1
  }

  /** Step i of the sampling loop: compute both child keys, value ± 2^n / 2^i, and move to the
      right child when the probability stored there is above draw i - 1. It fails with KeyError
      when the right child's key is missing, and then the walk over the first i draws fails. */
  method SampleStep(probDict: map<real, Prob>, n: nat, draws: seq<real>, i: nat,
                    ghost path: seq<char>, value: real, observables: seq<int>)
    returns (r: Result<(real, seq<int>)>, ghost path': seq<char>)
    requires 0 < i <= n == |draws| && Sampled(probDict, n, draws, i - 1, path, value, observables)
    ensures r.Err? ==> r.error == KeyError && Walk(probDict, n, draws[..i]).Err?
    ensures r.Ok? ==> Sampled(probDict, n, draws, i, path', r.value.0, r.value.1)
  {
    var root := Pow2(n);
    KeyStep(n, path, '+');
    KeyStep(n, path, '-');
    var valueLeft := value - StepSize(root, i);
    var valueRight := value + StepSize(root, i);
    WalkExtend(probDict, n, draws, i, path);
    if valueRight !in probDict {
      return Err(KeyError), path;
    }
    if Above(probDict[valueRight], draws[i - 1]) {
      var next := observables[i := observables[i] * 1];
      SampledExtend(probDict, n, draws, i, path, '+', observables, next);
      return Ok((valueRight, next)), path + ['+'];
    } else {
      var next := observables[i := observables[i] * -1];
      SampledExtend(probDict, n, draws, i, path, '-', observables, next);
      return Ok((valueLeft, next)), path + ['-'];
    }
  }

  /** Taking branch `c` at step i and setting observable i to its sign keeps the loop state. */
  lemma SampledExtend(probDict: map<real, Prob>, n: nat, draws: seq<real>, i: nat, path: seq<char>,
                      c: char, before: seq<int>, after: seq<int>)
    requires 0 < i <= |draws| && Sampled(probDict, n, draws, i - 1, path, Key(n, path), before)
    requires i < |before| && Walk(probDict, n, draws[..i]) == Ok(path + [c])
    requires after == before[i := before[i] * (if c == '+' then 1 else -1)]
    ensures Sampled(probDict, n, draws, i, path + [c], Key(n, path + [c]), after)
  {
    ObservablesStep(path, c, before, after, i);
  }

  /** The sampling loop of get_logical_op: one step per photon from the root key 2^n. It fails
      with KeyError when the right child's key is missing. */
  method SampleObservables(probDict: map<real, Prob>, numbPhotons: nat, draws: seq<real>)
    returns (r: Result<seq<int>>)
    requires |draws| == numbPhotons
    ensures Walk(probDict, numbPhotons, draws).Err? <==> r.Err?
    ensures r.Err? ==> r.error == KeyError
    ensures r.Ok? ==> r.value == Observables(Walk(probDict, numbPhotons, draws).value)
  {
    var observables := seq(numbPhotons + 1, _ => 1);
    var value := Pow2(numbPhotons);
    ghost var path: seq<char> := [];
    KeyRoot(numbPhotons);
    assert draws[..0] == [];
    for i := 1 to numbPhotons + 1
      invariant Sampled(probDict, numbPhotons, draws, i - 1, path, value, observables)
    {
      var step;
      step, path := SampleStep(probDict, numbPhotons, draws, i, path, value, observables);
      if step.Err? {
        WalkPrefixFails(probDict, numbPhotons, draws, i);
        return Err(KeyError);
      }
      value, observables := step.value.0, step.value.1;
    }
    assert draws[..numbPhotons] == draws;
    assert observables == observables[..numbPhotons + 1];
    return Ok(observables);
  }

  /** get_logical_op. It walks the tree with one draw per photon, then measures every stabilizer
      and the logical operator on the observables. It fails with KeyError when the walk meets a
      missing key. It fails with IndexError when a stabilizer or the logical operator has a
      non-'I' label past the last observable; stabilizers are measured first, in order. */
  method GetLogicalOp(probDict: map<real, Prob>, S: seq<seq<char>>, M: seq<char>, numbPhotons: nat,
                      draws: seq<real>)
    returns (r: Result<(int, seq<int>)>)
    requires |draws| == numbPhotons
    ensures Walk(probDict, numbPhotons, draws).Err? ==> r == Err(KeyError)
    ensures Walk(probDict, numbPhotons, draws).Ok? ==>
      var obs := Observables(Walk(probDict, numbPhotons, draws).value);
      (r.Err? <==> (exists k :: 0 <= k < |S| && Parity(obs, S[k]).Err?) || Parity(obs, M).Err?) &&
      (r.Err? ==> r.error == IndexError) &&
      (r.Ok? ==> (Parity(obs, M) == Ok(r.value.0) && |r.value.1| == |S| &&
                  forall k :: 0 <= k < |S| ==> Parity(obs, S[k]) == Ok(r.value.1[k])))
  {
    var sampled := SampleObservables(probDict, numbPhotons, draws);
    if sampled.Err? {
      return Err(KeyError);
    }
    var observables := sampled.value;
    var sMeasured: seq<int> := [];
    for k := 0 to |S|
      invariant |sMeasured| == k
      invariant forall k' :: 0 <= k' < k ==> Parity(observables, S[k']) == Ok(sMeasured[k'])
    {
      var s := Measure(observables, S[k]);
      if s.Err? {
        ParityFacts(observables, S[k]);
        return Err(IndexError);
      }
      sMeasured := sMeasured + [s.value];
    }
    var mMeasured := Measure(observables, M);
    if mMeasured.Err? {
      ParityFacts(observables, M);
      return Err(IndexError);
    }
    return Ok((mMeasured.value, sMeasured));
  }

  // ---------------------------------------------------------------------------------------
  // Walking the tree gen_prob_dict builds

  /** Every sign string of length `n` is among the configurations. */
  ghost predicate CoversAllBranches(configurations: seq<seq<char>>, n: nat)
  {
    forall t :: IsSignString(t) && |t| == n ==> t in configurations
  }

  /** Every node a walk can reach, and both its children, are in a tree built from all
      branches, and they hold the probabilities recorded for them. */
  lemma {:induction false} ChildrenRecorded<O, D>(pattern: seq<(O, O)>, den: D, probDen: (O, D) -> (real, D), n: nat,
                                                  configurations: seq<seq<char>>, parent: seq<char>, c: char)
    requires Walkable(pattern, configurations) && CoversAllBranches(configurations, n) && n < |pattern|
    requires IsSignString(parent) && |parent| < n && (c == '+' || c == '-')
    ensures Key(n, parent + [c]) in Tree(pattern, den, probDen, n, configurations)
    ensures Tree(pattern, den, probDen, n, configurations)[Key(n, parent + [c])] ==
      NodeProb(pattern, den, probDen, parent + [c])
  {
    var full := parent + [c] + Repeat('+', n - |parent| - 1);
    assert IsSignString(full) && |full| == n;
    var ci :| 0 <= ci < |configurations| && configurations[ci] == full;
    assert full[..|parent| + 1] == parent + [c];
    TreeLookup(pattern, den, probDen, n, configurations, ci, |parent| + 1);
  }

  /** Over a tree built from all branches of length n, a walk of at most n steps never meets a
      missing key. Every probability it compares with a draw is the one recorded for that
      child. */
  lemma {:induction false} WalkOverFullTree<O, D>(pattern: seq<(O, O)>, den: D, probDen: (O, D) -> (real, D),
                                                  n: nat, configurations: seq<seq<char>>, draws: seq<real>,
                                                  tree: map<real, Prob>)
    requires Walkable(pattern, configurations) && CoversAllBranches(configurations, n) && n < |pattern|
    requires |draws| <= n && tree == Tree(pattern, den, probDen, n, configurations)
    ensures Walk(tree, n, draws).Ok?
    ensures forall i :: 0 <= i < |draws| ==>
      Key(n, Walk(tree, n, draws).value[..i] + ['+']) in tree &&
      tree[Key(n, Walk(tree, n, draws).value[..i] + ['+'])] ==
      NodeProb(pattern, den, probDen, Walk(tree, n, draws).value[..i] + ['+'])
  {
    WalkSucceeds(pattern, den, probDen, n, configurations, draws);
    forall i | 0 <= i < |draws|
      ensures Key(n, Walk(tree, n, draws).value[..i] + ['+']) in tree
      ensures tree[Key(n, Walk(tree, n, draws).value[..i] + ['+'])] ==
        NodeProb(pattern, den, probDen, Walk(tree, n, draws).value[..i] + ['+'])
    {
      var prefix := Walk(tree, n, draws).value[..i];
      assert IsSignString(prefix);
      ChildrenRecorded(pattern, den, probDen, n, configurations, prefix, '+');
    }
  }

  lemma {:induction false} WalkSucceeds<O, D>(pattern: seq<(O, O)>, den: D, probDen: (O, D) -> (real, D),
                                              n: nat, configurations: seq<seq<char>>, draws: seq<real>)
    requires Walkable(pattern, configurations) && CoversAllBranches(configurations, n) && n < |pattern|
    requires |draws| <= n
    ensures Walk(Tree(pattern, den, probDen, n, configurations), n, draws).Ok?
  {
    if draws != [] {
      var init := draws[..|draws| - 1];
      WalkSucceeds(pattern, den, probDen, n, configurations, init);
      var prev := Walk(Tree(pattern, den, probDen, n, configurations), n, init).value;
      ChildrenRecorded(pattern, den, probDen, n, configurations, prev, '+');
    }
  }

  /** In a tree built from all branches, the two children of any node a walk can reach hold
      probabilities in [0, 1] that sum to 1, provided the branch weights there are non-negative
      and not both zero. */
  lemma TreeSiblingsSumToOne<O, D>(pattern: seq<(O, O)>, den: D, probDen: (O, D) -> (real, D), n: nat,
                                   configurations: seq<seq<char>>, parent: seq<char>)
    requires Walkable(pattern, configurations) && CoversAllBranches(configurations, n) && n < |pattern|
    requires IsSignString(parent) && |parent| < n
    requires var state, ops := State(pattern, den, probDen, parent), pattern[|parent| + 1];
      probDen(ops.0, state).0 >= 0.0 && probDen(ops.1, state).0 >= 0.0 &&
      probDen(ops.0, state).0 + probDen(ops.1, state).0 > 0.0
    ensures var tree := Tree(pattern, den, probDen, n, configurations);
      Key(n, parent + ['+']) in tree && Key(n, parent + ['-']) in tree &&
      var up, down := tree[Key(n, parent + ['+'])], tree[Key(n, parent + ['-'])];
      up.Num? && down.Num? && 0.0 <= up.p <= 1.0 && 0.0 <= down.p <= 1.0 && up.p + down.p == 1.0
  {
    ChildrenRecorded(pattern, den, probDen, n, configurations, parent, '+');
    ChildrenRecorded(pattern, den, probDen, n, configurations, parent, '-');
    SiblingsSumToOne(pattern, den, probDen, parent);
  }

  /** get_configuration(n + 1) lists every branch of length n, so get_logical_op on the tree
      gen_prob_dict builds from it never raises KeyError (2 <= n <= 7, the sizes it supports). */
  lemma NoKeyErrorWithAllConfigurations<O, D>(pattern: seq<(O, O)>, den: D, probDen: (O, D) -> (real, D),
                                              n: nat, draws: seq<real>)
    requires 2 <= n <= 7 && |pattern| > n && |draws| == n
    ensures Walkable(pattern, ConfigurationsOf(SignMultisets(n + 1), n))
    ensures Walk(Tree(pattern, den, probDen, n, ConfigurationsOf(SignMultisets(n + 1), n)), n, draws).Ok?
  {
    var configurations := ConfigurationsOf(SignMultisets(n + 1), n);
    ConfigurationsOfTable(n + 1, configurations);
    WalkSucceeds(pattern, den, probDen, n, configurations, draws);
  }
}
