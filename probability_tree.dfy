/** The probability tree (gen_prob_dict). Each node of the measurement tree is a key; the
    value at a key is the conditional probability of the last step of the path that leads to
    it. The density-matrix algebra is abstract: `probDen` stands for prob_den. Given an
    operator and a density matrix, it returns the weight tr(P rho P†) and the collapsed state.
    Its operator and matrix types are type parameters. */
module ProbabilityTree {
  import opened Outcomes
  import opened Reals

  /** 2^k as a real number: the Python integer 2 ** k, taken to a float by true division. */
  function Pow2(k: nat): (r: real)
    ensures r >= 1.0
  {
    if k == 0 then 1.0 else 2.0 * Pow2(k - 1)
  }

  // ---------------------------------------------------------------------------------------
  // Tree-path keys

  /** The signed numerator of a key: 1 for the root, and each step doubles it and adds 1 for
      '+' or subtracts 1 for any other symbol. */
  function Code(path: seq<char>): real
  {
    if path == [] then 1.0
    else 2.0 * Code(path[..|path| - 1]) + (if path[|path| - 1] == '+' then 1.0 else -1.0)
  }

  /** root * numerator / denominator. */
  function Scaled(root: real, numerator: real, denominator: real): real
    requires denominator > 0.0
  {
    root * numerator / denominator
  }

  /** The key of the node reached by `path` in a tree for `n` photons, in closed form:
      2^n * Code(path) / 2^|path|. gen_prob_dict computes it step by step: it starts at the root
      value 2^n, and step i (counting from 1) adds 2^n / 2^i for '+' and subtracts it for any
      other symbol. KeyRoot and KeyStep show the two agree. The source keys its dictionary by
      the text of this float value. Floats that are equal have equal text and floats that differ
      have different text, so the value itself serves as the key. Every key lies strictly
      between 0 and twice the root key. */
  function Key(n: nat, path: seq<char>): (k: real)
    ensures 0.0 < k < 2.0 * Pow2(n)
  {
    CodeBounds(path);
    ScaledBetween(Pow2(n), Code(path), Pow2(|path|));
    Scaled(Pow2(n), Code(path), Pow2(|path|))
  }

  /** The numerator of a key after k steps lies in [1, 2^(k+1) - 1]. */
  lemma {:induction false} CodeBounds(path: seq<char>)
    ensures 1.0 <= Code(path) && Code(path) + 1.0 <= 2.0 * Pow2(|path|)
  {
    if path != [] {
      CodeBounds(path[..|path| - 1]);
    }
  }

  lemma ScaledBetween(root: real, numerator: real, denominator: real)
    requires root > 0.0 && denominator > 0.0 && 0.0 < numerator < 2.0 * denominator
    ensures 0.0 < Scaled(root, numerator, denominator) < 2.0 * root
  {
    var q := Scaled(root, numerator, denominator);
    assert q * denominator == root * numerator;
    assert root * numerator > 0.0;
    assert root * numerator < root * (2.0 * denominator);
  }

  /** Two paths take the same branch at every step: the source treats any symbol other than
      '+' as '-'. */
  predicate SameBranches(p: seq<char>, q: seq<char>)
  {
    |p| == |q| && forall i :: 0 <= i < |p| ==> (p[i] == '+' <==> q[i] == '+')
  }

  /** The root key is 2^n. */
  lemma KeyRoot(n: nat)
    ensures Key(n, []) == Pow2(n)
  {
    assert Code([]) == 1.0 && Pow2(0) == 1.0;
  }

  /** How far step `depth` moves a key in a tree whose root key is `root`: root / 2^depth. */
  function StepSize(root: real, depth: nat): real
  {
    Scaled(root, 1.0, Pow2(depth))
  }

  /** One step of a key, in terms of its numerator: the numerator doubles and gains or loses
      one, the denominator doubles. */
  lemma FractionStep(r: real, c: real, a: real, up: bool, code: real, denom: real)
    requires a > 0.0 && denom == 2.0 * a
    requires code == 2.0 * c + (if up then 1.0 else -1.0)
    ensures Scaled(r, code, denom) ==
      if up then Scaled(r, c, a) + Scaled(r, 1.0, denom) else Scaled(r, c, a) - Scaled(r, 1.0, denom)
  {
  }

  /** Step |path| + 1 moves the key up by 2^n / 2^(|path|+1) for '+' and down by as much for
      any other symbol: the update gen_prob_dict applies. */
  lemma KeyStep(n: nat, path: seq<char>, c: char)
    ensures Key(n, path + [c]) == if c == '+' then Key(n, path) + StepSize(Pow2(n), |path| + 1)
                                  else Key(n, path) - StepSize(Pow2(n), |path| + 1)
  {
    var next := path + [c];
    assert next[..|next| - 1] == path;
    FractionStep(Pow2(n), Code(path), Pow2(|path|), c == '+', Code(next), Pow2(|next|));
  }

  lemma {:induction false} Pow2Add(a: nat, b: nat)
    ensures Pow2(a + b) == Pow2(a) * Pow2(b)
  {
    if b > 0 {
      Pow2Add(a, b - 1);
      assert Pow2(a + b) == 2.0 * Pow2(a + b - 1);
    }
  }

  lemma Pow2Split(n: nat, k: nat)
    requires k <= n
    ensures Pow2(n) == Pow2(n - k) * Pow2(k)
  {
    Pow2Add(n - k, k);
    assert n - k + k == n;
  }

  lemma Unscale(r: real, a: real, b: real, c: real)
    requires b > 0.0 && r == a * b
    ensures Scaled(r, c, b) == a * c
  {
  }

  // Integer counterparts, for the parity argument

  function Pow2Int(k: nat): (r: nat)
    ensures r >= 1
  {
    if k == 0 then 1 else 2 * Pow2Int(k - 1)
  }

  function CodeInt(path: seq<char>): int
  {
    if path == [] then 1
    else 2 * CodeInt(path[..|path| - 1]) + (if path[|path| - 1] == '+' then 1 else -1)
  }

  lemma {:induction false} IntegerValues(path: seq<char>, k: nat)
    ensures Code(path) == CodeInt(path) as real
    ensures Pow2(k) == Pow2Int(k) as real
    decreases |path| + k
  {
    if path != [] {
      IntegerValues(path[..|path| - 1], k);
    }
    if k > 0 {
      IntegerValues([], k - 1);
    }
  }

  lemma {:induction false} CodeOdd(path: seq<char>)
    ensures CodeInt(path) % 2 == 1
  {
    if path != [] {
      OddForm(CodeInt(path[..|path| - 1]));
    }
  }

  lemma OddForm(half: int)
    ensures (2 * half + 1) % 2 == 1 && (2 * half - 1) % 2 == 1
  {
  }

  /** After k <= n steps the key is 2^(n-k) times an odd integer. It is a whole number, and
      keys at different depths differ in their power of two. */
  lemma {:induction false} KeyOddMultiple(n: nat, path: seq<char>)
    requires |path| <= n
    ensures Key(n, path) == Pow2(n - |path|) * Code(path)
    ensures Code(path) == CodeInt(path) as real && CodeInt(path) % 2 == 1
  {
    KeyScaledDown(n, path);
    IntegerValues(path, 0);
    CodeOdd(path);
  }

  lemma {:induction false} KeyScaledDown(n: nat, path: seq<char>)
    requires |path| <= n
    ensures Key(n, path) == Pow2(n - |path|) * Code(path)
  {
    var high, low := Pow2(n - |path|), Pow2(|path|);
    Pow2Split(n, |path|);
    Unscale(Pow2(n), high, low, Code(path));
  }

  lemma MulCancel(x: int, y: int, c: int)
    requires c > 0 && x * c == y * c
    ensures x == y
  {
    assert (x - y) * c == 0;
  }

  lemma EvenMultiple(x: int, d: nat)
    requires d > 0
    ensures (x * Pow2Int(d)) % 2 == 0
  {
    var half := Pow2Int(d - 1);
    assert Pow2Int(d) == 2 * half;
    MulDouble(x, half);
    DoubleEven(x * half);
  }

  lemma MulDouble(x: int, y: int)
    ensures x * (2 * y) == 2 * (x * y)
  {
  }

  lemma DoubleEven(y: int)
    ensures (2 * y) % 2 == 0
  {
  }

  lemma MulAssoc(x: int, y: int, z: int)
    ensures x * (y * z) == x * y * z
  {
  }

  lemma {:induction false} Pow2IntAdd(a: nat, b: nat)
    ensures Pow2Int(a + b) == Pow2Int(a) * Pow2Int(b)
  {
    if b > 0 {
      Pow2IntAdd(a, b - 1);
      assert Pow2Int(a + b) == 2 * Pow2Int(a + b - 1);
    }
  }

  /** An odd numerator over 2^j equals another odd numerator over 2^k only when j == k. */
  lemma {:induction false} CrossEqualOrdered(cp: int, j: nat, cq: int, k: nat)
    requires cp % 2 == 1 && cq % 2 == 1 && j <= k
    requires cp * Pow2Int(k) == cq * Pow2Int(j)
    ensures j == k && cp == cq
  {
    Pow2IntAdd(j, k - j);
    MulAssoc(cp, Pow2Int(k - j), Pow2Int(j));
    MulCancel(cp * Pow2Int(k - j), cq, Pow2Int(j));
    if j < k {
      EvenMultiple(cp, k - j);
    }
  }

  /** Equal numerators over powers of two with odd numerators force equal depths. */
  lemma CrossEqual(p: seq<char>, q: seq<char>)
    requires CodeInt(p) * Pow2Int(|q|) == CodeInt(q) * Pow2Int(|p|)
    ensures |p| == |q| && CodeInt(p) == CodeInt(q)
  {
    CodeOdd(p);
    CodeOdd(q);
    if |p| <= |q| {
      CrossEqualOrdered(CodeInt(p), |p|, CodeInt(q), |q|);
    } else {
      CrossEqualOrdered(CodeInt(q), |q|, CodeInt(p), |p|);
    }
  }

  /** Paths of equal length with equal numerators take the same branches. */
  lemma {:induction false} CodeInjective(p: seq<char>, q: seq<char>)
    requires |p| == |q| && CodeInt(p) == CodeInt(q)
    ensures SameBranches(p, q)
  {
    if p != [] {
      var ip, iq := p[..|p| - 1], q[..|q| - 1];
      CodeOdd(ip);
      CodeOdd(iq);
      assert (p[|p| - 1] == '+') == (q[|q| - 1] == '+');
      CodeInjective(ip, iq);
      forall i | 0 <= i < |p|
        ensures p[i] == '+' <==> q[i] == '+'
      {
        if i < |ip| {
          assert p[i] == ip[i] && q[i] == iq[i];
        }
      }
    }
  }

  lemma CrossMultiply(r: real, x: real, a: real, y: real, b: real)
    requires r > 0.0 && a > 0.0 && b > 0.0
    requires Scaled(r, x, a) == Scaled(r, y, b)
    ensures Times(x, b) == Times(y, a)
  {
    assert r * x * b == r * y * a;
  }

  lemma IntCross(x: int, b: int, y: int, a: int)
    requires Times(x as real, b as real) == Times(y as real, a as real)
    ensures x * b == y * a
  {
    assert (x * b) as real == x as real * b as real;
    assert (y * a) as real == y as real * a as real;
  }

  lemma KeyCrossReal(n: nat, p: seq<char>, q: seq<char>)
    requires Key(n, p) == Key(n, q)
    ensures Times(Code(p), Pow2(|q|)) == Times(Code(q), Pow2(|p|))
  {
    CrossMultiply(Pow2(n), Code(p), Pow2(|p|), Code(q), Pow2(|q|));
  }

  lemma KeyCross(n: nat, p: seq<char>, q: seq<char>)
    requires Key(n, p) == Key(n, q)
    ensures CodeInt(p) * Pow2Int(|q|) == CodeInt(q) * Pow2Int(|p|)
  {
    KeyCrossReal(n, p, q);
    IntegerValues(p, |q|);
    IntegerValues(q, |p|);
    IntCross(CodeInt(p), Pow2Int(|q|), CodeInt(q), Pow2Int(|p|));
  }

  /** Distinct nodes of the tree have distinct keys: equal keys mean the same branch at every
      step, at any depth. */
  lemma {:induction false} KeyInjective(n: nat, p: seq<char>, q: seq<char>)
    requires Key(n, p) == Key(n, q)
    ensures SameBranches(p, q)
  {
    KeyCross(n, p, q);
    CrossEqual(p, q);
    CodeInjective(p, q);
  }

  // ---------------------------------------------------------------------------------------
  // Conditional probabilities

  /** A stored probability: numpy yields a not-a-number for 0/0, which compares false with
      everything. */
  datatype Prob = Num(p: real) | NaN

  /** A branch weight divided by the sum of both weights. */
  function Ratio(weight: real, norm: real): Prob
  {
    if norm == 0.0 then NaN else Num(weight / norm)
  }

  /** The density matrix gen_prob_dict holds after walking `path`. It starts from the input
      collapsed on qubit 0's up projector. Step i then applies qubit i+1's up projector for '+'
      and its down projector for anything else. */
  function State<O, D>(pattern: seq<(O, O)>, den: D, probDen: (O, D) -> (real, D), path: seq<char>): D
    requires |path| < |pattern|
  {
    if path == [] then probDen(pattern[0].0, den).1
    else
      var parent := State(pattern, den, probDen, path[..|path| - 1]);
      var ops := pattern[|path|];
      if path[|path| - 1] == '+' then probDen(ops.0, parent).1 else probDen(ops.1, parent).1
  }

  /** The probability gen_prob_dict records for the last step of `path`: the weight of the
      branch taken over the sum of both branch weights at the parent state. It is not-a-number
      when both weights sum to zero, and a probability when they are non-negative and not both
      zero. */
  function NodeProb<O, D>(pattern: seq<(O, O)>, den: D, probDen: (O, D) -> (real, D), path: seq<char>): (prob: Prob)
    requires 0 < |path| < |pattern|
    ensures var parent, ops := State(pattern, den, probDen, path[..|path| - 1]), pattern[|path|];
      var wUp, wDown := probDen(ops.0, parent).0, probDen(ops.1, parent).0;
      && (wUp + wDown == 0.0 ==> prob == NaN)
      && (wUp >= 0.0 && wDown >= 0.0 && wUp + wDown > 0.0 ==> prob.Num? && 0.0 <= prob.p <= 1.0)
  {
    var parent := State(pattern, den, probDen, path[..|path| - 1]);
    var ops := pattern[|path|];
    var wUp, wDown := probDen(ops.0, parent).0, probDen(ops.1, parent).0;
    var prob := if path[|path| - 1] == '+' then Ratio(wUp, wUp + wDown) else Ratio(wDown, wUp + wDown);
    if wUp >= 0.0 && wDown >= 0.0 && wUp + wDown > 0.0 then NormalizedPair(wUp, wDown); prob else prob
  }

  /** State and recorded probability depend only on the branches a path takes. */
  lemma {:induction false} SameBranchesSameState<O, D>(pattern: seq<(O, O)>, den: D, probDen: (O, D) -> (real, D), p: seq<char>, q: seq<char>)
    requires SameBranches(p, q) && |p| < |pattern|
    ensures State(pattern, den, probDen, p) == State(pattern, den, probDen, q)
    ensures |p| > 0 ==> NodeProb(pattern, den, probDen, p) == NodeProb(pattern, den, probDen, q)
  {
    if p != [] {
      SameBranchesSameState(pattern, den, probDen, p[..|p| - 1], q[..|q| - 1]);
    }
  }

  /** Two non-negative weights, not both zero, normalise to probabilities that sum to 1. */
  lemma NormalizedPair(wUp: real, wDown: real)
    requires wUp >= 0.0 && wDown >= 0.0 && wUp + wDown > 0.0
    ensures Ratio(wUp, wUp + wDown).Num? && Ratio(wDown, wUp + wDown).Num?
    ensures 0.0 <= Ratio(wUp, wUp + wDown).p <= 1.0 && 0.0 <= Ratio(wDown, wUp + wDown).p <= 1.0
    ensures Ratio(wUp, wUp + wDown).p + Ratio(wDown, wUp + wDown).p == 1.0
  {
    var norm := wUp + wDown;
    assert wUp / norm + wDown / norm == (wUp + wDown) / norm;
  }

  /** With non-negative branch weights that are not both zero, the two children of a node
      record probabilities in [0, 1] that sum to 1. */
  lemma SiblingsSumToOne<O, D>(pattern: seq<(O, O)>, den: D, probDen: (O, D) -> (real, D), parent: seq<char>)
    requires |parent| + 1 < |pattern|
    requires var state, ops := State(pattern, den, probDen, parent), pattern[|parent| + 1];
      probDen(ops.0, state).0 >= 0.0 && probDen(ops.1, state).0 >= 0.0 &&
      probDen(ops.0, state).0 + probDen(ops.1, state).0 > 0.0
    ensures NodeProb(pattern, den, probDen, parent + ['+']).Num?
    ensures NodeProb(pattern, den, probDen, parent + ['-']).Num?
    ensures 0.0 <= NodeProb(pattern, den, probDen, parent + ['+']).p <= 1.0
    ensures 0.0 <= NodeProb(pattern, den, probDen, parent + ['-']).p <= 1.0
    ensures NodeProb(pattern, den, probDen, parent + ['+']).p +
      NodeProb(pattern, den, probDen, parent + ['-']).p == 1.0
  {
    var state, ops := State(pattern, den, probDen, parent), pattern[|parent| + 1];
    ChildProb(pattern, den, probDen, parent, '+');
    ChildProb(pattern, den, probDen, parent, '-');
    NormalizedPair(probDen(ops.0, state).0, probDen(ops.1, state).0);
  }

  /** The probability recorded for a child, in terms of its parent's state. */
  lemma ChildProb<O, D>(pattern: seq<(O, O)>, den: D, probDen: (O, D) -> (real, D), parent: seq<char>, c: char)
    requires |parent| + 1 < |pattern|
    ensures var state, ops := State(pattern, den, probDen, parent), pattern[|parent| + 1];
      var wUp, wDown := probDen(ops.0, state).0, probDen(ops.1, state).0;
      NodeProb(pattern, den, probDen, parent + [c]) ==
        if c == '+' then Ratio(wUp, wUp + wDown) else Ratio(wDown, wUp + wDown)
  {
    assert (parent + [c])[..|parent|] == parent;
  }

  // ---------------------------------------------------------------------------------------
  // gen_prob_dict

  /** Every configuration can be walked with the given projector pattern. */
  predicate Walkable<O>(pattern: seq<(O, O)>, configurations: seq<seq<char>>)
  {
    forall c :: c in configurations ==> |c| < |pattern|
  }

  /** `table` after recording the first `k` steps of `config`. Recording keeps every key
      already present and adds the key of each recorded step. */
  function Record<O, D>(pattern: seq<(O, O)>, den: D, probDen: (O, D) -> (real, D), n: nat,
                        table: map<real, Prob>, config: seq<char>, k: nat): (recorded: map<real, Prob>)
    requires k <= |config| && k < |pattern|
    ensures table.Keys <= recorded.Keys
    ensures forall j :: 1 <= j <= k ==> Key(n, config[..j]) in recorded
  {
    if k == 0 then table
    else
      Record(pattern, den, probDen, n, table, config, k - 1)
        [Key(n, config[..k]) := NodeProb(pattern, den, probDen, config[..k])]
  }

  /** The dictionary gen_prob_dict builds from `configurations`, in order. Later configurations
      overwrite the keys they share with earlier ones. The key of every prefix of every
      configuration is in it. */
  function Tree<O, D>(pattern: seq<(O, O)>, den: D, probDen: (O, D) -> (real, D), n: nat,
                      configurations: seq<seq<char>>): (tree: map<real, Prob>)
    requires Walkable(pattern, configurations)
    ensures forall ci, k :: 0 <= ci < |configurations| && 1 <= k <= |configurations[ci]| ==>
      Key(n, configurations[ci][..k]) in tree
  {
    if configurations == [] then map[]
    else
      var init, last := configurations[..|configurations| - 1], configurations[|configurations| - 1];
      assert forall ci :: 0 <= ci < |init| ==> configurations[ci] == init[ci];
      Record(pattern, den, probDen, n, Tree(pattern, den, probDen, n, init), last, |last|)
  }

  /** Step i of a configuration: the child's key moves from the parent's by 2^n / 2^(i+1), its
      state is the parent's after the projector of the branch taken, and the dictionary gains
      the child's probability at the child's key. */
  lemma RecordStep<O, D>(pattern: seq<(O, O)>, den: D, probDen: (O, D) -> (real, D), n: nat,
                         table: map<real, Prob>, config: seq<char>, i: nat)
    requires i < |config| && i + 1 < |pattern|
    ensures var state, ops := State(pattern, den, probDen, config[..i]), pattern[i + 1];
      var wUp, wDown := probDen(ops.0, state).0, probDen(ops.1, state).0;
      && Key(n, config[..i + 1]) ==
           (if config[i] == '+' then Key(n, config[..i]) + StepSize(Pow2(n), i + 1)
            else Key(n, config[..i]) - StepSize(Pow2(n), i + 1))
      && State(pattern, den, probDen, config[..i + 1]) ==
           (if config[i] == '+' then probDen(ops.0, state).1 else probDen(ops.1, state).1)
      && NodeProb(pattern, den, probDen, config[..i + 1]) ==
           (if config[i] == '+' then Ratio(wUp, wUp + wDown) else Ratio(wDown, wUp + wDown))
      && Record(pattern, den, probDen, n, table, config, i + 1) ==
           Record(pattern, den, probDen, n, table, config, i)
             [Key(n, config[..i + 1]) := NodeProb(pattern, den, probDen, config[..i + 1])]
  {
    assert config[..i + 1][..i] == config[..i];
    assert config[..i + 1] == config[..i] + [config[i]];
    KeyStep(n, config[..i], config[i]);
  }

  /** Step i of the inner loop: take the branch config[i], moving the key by 2^n / 2^(i+1) and
      the state through that branch's projector, and record the branch's probability, its
      weight over the sum of both weights, at the new key. */
  method RecordBranch<O, D>(pattern: seq<(O, O)>, den: D, probDen: (O, D) -> (real, D), numbPhotons: nat,
                            probDict: map<real, Prob>, config: seq<char>, i: nat,
                            value: real, denLoop: D, table: map<real, Prob>)
    returns (value': real, denLoop': D, table': map<real, Prob>)
    requires i < |config| && i + 1 < |pattern|
    requires value == Key(numbPhotons, config[..i])
    requires denLoop == State(pattern, den, probDen, config[..i])
    requires table == Record(pattern, den, probDen, numbPhotons, probDict, config, i)
    ensures value' == Key(numbPhotons, config[..i + 1])
    ensures denLoop' == State(pattern, den, probDen, config[..i + 1])
    ensures table' == Record(pattern, den, probDen, numbPhotons, probDict, config, i + 1)
  {
    var root := Pow2(numbPhotons);
    var (up, down) := pattern[i + 1];
    RecordStep(pattern, den, probDen, numbPhotons, probDict, config, i);
    if config[i] == '+' {
      var operator := up;
      var (pUp, stateUp) := probDen(operator, denLoop);
      var (pDown, stateDown) := probDen(down, denLoop);
      var norm := pUp + pDown;
      var stored := Ratio(pUp, norm);
      denLoop' := stateUp;
      value' := value + StepSize(root, i + 1);
      table' := table[value' := stored];
    } else {
      var operator := down;
      var (pDown, stateDown) := probDen(operator, denLoop);
      var (pUp, stateUp) := probDen(up, denLoop);
      var norm := pUp + pDown;
      var stored := Ratio(pDown, norm);
      denLoop' := stateDown;
      value' := value - StepSize(root, i + 1);
      table' := table[value' := stored];
    }
  }

  /** One pass of gen_prob_dict's inner loop: walk `config` from the root, recording at each
      step's key the conditional probability of the branch taken. `den` is the input density
      matrix; the pass starts from `collapsed`, the state after qubit 0's up projector. The pass
      fails with IndexError when `config` has as many steps as the pattern has qubits. */
  method RecordConfiguration<O, D>(pattern: seq<(O, O)>, den: D, collapsed: D, probDen: (O, D) -> (real, D),
                                   numbPhotons: nat, probDict: map<real, Prob>, config: seq<char>)
    returns (r: Result<map<real, Prob>>)
    requires |pattern| > 0 && collapsed == probDen(pattern[0].0, den).1
    ensures r.Err? <==> |config| >= |pattern|
    ensures r.Err? ==> r.error == IndexError
    ensures r.Ok? ==> r.value == Record(pattern, den, probDen, numbPhotons, probDict, config, |config|)
  {
    var table := probDict;
    var value := Pow2(numbPhotons);
    KeyRoot(numbPhotons);
    assert config[..0] == [];
    var denLoop := collapsed;
    for i := 0 to |config|
      invariant i < |pattern|
      invariant value == Key(numbPhotons, config[..i])
      invariant denLoop == State(pattern, den, probDen, config[..i])
      invariant table == Record(pattern, den, probDen, numbPhotons, probDict, config, i)
    {
      if i + 1 >= |pattern| {
        return Err(IndexError);
      }
      value, denLoop, table := RecordBranch(pattern, den, probDen, numbPhotons, probDict, config, i,
                                            value, denLoop, table);
    }
    assert |config| < |pattern|;
    return Ok(table);
  }

  /** gen_prob_dict. It fails with IndexError when the pattern is empty or a configuration has
      as many steps as the pattern has qubits. */
  method GenProbDict<O, D>(pattern: seq<(O, O)>, denMatrix: D, configurations: seq<seq<char>>,
                           numbPhotons: nat, probDen: (O, D) -> (real, D))
    returns (r: Result<map<real, Prob>>)
    ensures r.Err? ==> r.error == IndexError
    ensures r.Err? <==> |pattern| == 0 || !Walkable(pattern, configurations)
    ensures r.Ok? ==> r.value == Tree(pattern, denMatrix, probDen, numbPhotons, configurations)
  {
    if |pattern| == 0 {
      return Err(IndexError);
    }
    var probDict: map<real, Prob> := map[];
    var (_, den) := probDen(pattern[0].0, denMatrix);
    for ci := 0 to |configurations|
      invariant Walkable(pattern, configurations[..ci])
      invariant probDict == Tree(pattern, denMatrix, probDen, numbPhotons, configurations[..ci])
    {
      var config := configurations[ci];
      assert configurations[..ci + 1][..ci] == configurations[..ci];
      var recorded := RecordConfiguration(pattern, denMatrix, den, probDen, numbPhotons, probDict, config);
      if recorded.Err? {
        assert config in configurations;
        return recorded;
      }
      probDict := recorded.value;
    }
    assert configurations[..|configurations|] == configurations;
    return Ok(probDict);
  }

  // ---------------------------------------------------------------------------------------
  // What the tree holds

  /** Every entry of `table` is the recorded probability of some path with its key. */
  ghost predicate Faithful<O, D>(pattern: seq<(O, O)>, den: D, probDen: (O, D) -> (real, D), n: nat,
                                 table: map<real, Prob>)
  {
    forall key :: key in table ==>
      exists p :: (0 < |p| < |pattern| && key == Key(n, p) && table[key] == NodeProb(pattern, den, probDen, p))
  }

  /** Recording the steps of a configuration into a faithful table leaves it faithful. */
  lemma {:induction false} RecordFaithful<O, D>(pattern: seq<(O, O)>, den: D, probDen: (O, D) -> (real, D), n: nat,
                                                table: map<real, Prob>, config: seq<char>, k: nat)
    requires k <= |config| < |pattern| && Faithful(pattern, den, probDen, n, table)
    ensures Faithful(pattern, den, probDen, n, Record(pattern, den, probDen, n, table, config, k))
  {
    if k > 0 {
      RecordFaithful(pattern, den, probDen, n, table, config, k - 1);
      var prev := Record(pattern, den, probDen, n, table, config, k - 1);
      var next := Record(pattern, den, probDen, n, table, config, k);
      forall key | key in next
        ensures exists p :: (0 < |p| < |pattern| && key == Key(n, p) && next[key] == NodeProb(pattern, den, probDen, p))
      {
        if key == Key(n, config[..k]) {
          assert next[key] == NodeProb(pattern, den, probDen, config[..k]);
        } else {
          assert key in prev && next[key] == prev[key];
        }
      }
    }
  }

  lemma {:induction false} TreeFaithful<O, D>(pattern: seq<(O, O)>, den: D, probDen: (O, D) -> (real, D), n: nat,
                                              configurations: seq<seq<char>>)
    requires Walkable(pattern, configurations)
    ensures Faithful(pattern, den, probDen, n, Tree(pattern, den, probDen, n, configurations))
  {
    if configurations != [] {
      var init, last := configurations[..|configurations| - 1], configurations[|configurations| - 1];
      assert Walkable(pattern, init);
      TreeFaithful(pattern, den, probDen, n, init);
      RecordFaithful(pattern, den, probDen, n, Tree(pattern, den, probDen, n, init), last, |last|);
    }
  }

  /** The value gen_prob_dict leaves at the key of any step of any configuration is the
      probability recorded for that very step. Overwrites by later configurations that share the
      prefix store the identical value. */
  lemma {:induction false} TreeLookup<O, D>(pattern: seq<(O, O)>, den: D, probDen: (O, D) -> (real, D), n: nat,
                                            configurations: seq<seq<char>>, ci: nat, k: nat)
    requires Walkable(pattern, configurations)
    requires ci < |configurations| && 1 <= k <= |configurations[ci]|
    ensures Key(n, configurations[ci][..k]) in Tree(pattern, den, probDen, n, configurations)
    ensures Tree(pattern, den, probDen, n, configurations)[Key(n, configurations[ci][..k])] ==
      NodeProb(pattern, den, probDen, configurations[ci][..k])
  {
    TreeFaithful(pattern, den, probDen, n, configurations);
    var q := configurations[ci][..k];
    var table := Tree(pattern, den, probDen, n, configurations);
    var p :| 0 < |p| < |pattern| && Key(n, q) == Key(n, p) && table[Key(n, q)] == NodeProb(pattern, den, probDen, p);
    KeyInjective(n, p, q);
    SameBranchesSameState(pattern, den, probDen, p, q);
  }
}
