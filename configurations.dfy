/** The configuration enumerator: every branch of the measurement tree as a string of
    '+' (no error) and '-' (error) signs, one per measured qubit. */
module Configurations {
  import opened Lists

  /** A configuration: one '+' or '-' per measured qubit. */
  predicate IsSignString(s: seq<char>)
  {
    forall i :: 0 <= i < |s| ==> s[i] == '+' || s[i] == '-'
  }

  /** The number of '-' signs (errors) in `s`. */
  function MinusCount(s: seq<char>): nat
  {
    multiset(s)['-']
  }

  /** `n` copies of `c`. */
  function Repeat(c: char, n: nat): (s: seq<char>)
    ensures |s| == n && forall i :: 0 <= i < n ==> s[i] == c
  {
    if n == 0 then [] else Repeat(c, n - 1) + [c]
  }

  lemma {:induction false} RepeatMultiset(c: char, n: nat)
    ensures multiset(Repeat(c, n))[c] == n
    ensures forall d :: d != c ==> multiset(Repeat(c, n))[d] == 0
  {
    if n > 0 {
      RepeatMultiset(c, n - 1);
    }
  }

  /** The sign string with `plus` '+' signs followed by `minus` '-' signs; the source writes
      these out literally ("+++-" is Signs(3, 1)). */
  function Signs(plus: nat, minus: nat): (s: seq<char>)
    ensures |s| == plus + minus && IsSignString(s)
    ensures multiset(s)['+'] == plus && MinusCount(s) == minus
  {
    RepeatMultiset('+', plus);
    RepeatMultiset('-', minus);
    Repeat('+', plus) + Repeat('-', minus)
  }

  /** A sign string holds only '+' and '-', so its two counts add up to its length. */
  lemma {:induction false} SignCounts(t: seq<char>)
    requires IsSignString(t)
    ensures multiset(t)['+'] + MinusCount(t) == |t|
    ensures forall c :: c != '+' && c != '-' ==> multiset(t)[c] == 0
  {
    if t != [] {
      var init := t[..|t| - 1];
      assert t == init + [t[|t| - 1]];
      SignCounts(init);
    }
  }

  /** Two sign strings of one length are rearrangements of each other exactly when they hold
      the same number of '-' signs. */
  lemma SameSignMultiset(s: seq<char>, t: seq<char>)
    requires IsSignString(s) && IsSignString(t) && |s| == |t|
    ensures multiset(s) == multiset(t) <==> MinusCount(s) == MinusCount(t)
  {
    SignCounts(s);
    SignCounts(t);
    if MinusCount(s) == MinusCount(t) {
      assert forall c :: multiset(s)[c] == multiset(t)[c];
    }
  }

  /** A rearrangement of a sign string is a sign string of the same length. */
  lemma RearrangedSigns(s: seq<char>, t: seq<char>)
    requires IsSignString(s) && multiset(t) == multiset(s)
    ensures IsSignString(t) && |t| == |s|
  {
    assert |t| == |multiset(t)| == |multiset(s)| == |s|;
    forall i | 0 <= i < |t|
      ensures t[i] == '+' || t[i] == '-'
    {
      assert t[i] in multiset(t);
      assert t[i] in s;
    }
  }

  // ---------------------------------------------------------------------------------------
  // itertools.permutations

  /** `s` with the element at index `i` taken out. */
  function RemoveAt(s: seq<char>, i: nat): (r: seq<char>)
    requires i < |s|
    ensures |r| == |s| - 1
  {
    s[..i] + s[i + 1..]
  }

  /** `c` put in front of each of `ps`. */
  function PrependAll(c: char, ps: seq<seq<char>>): (r: seq<seq<char>>)
    ensures |r| == |ps| && forall k :: 0 <= k < |ps| ==> r[k] == [c] + ps[k]
  {
    if ps == [] then [] else [[c] + ps[0]] + PrependAll(c, ps[1..])
  }

  /** `itertools.permutations(s, r)`: the length-`r` arrangements of the positions of `s`, in
      lexicographic order of the chosen positions; equal letters at different positions give
      repeated arrangements. */
  function Permutations(s: seq<char>, r: nat): (ps: seq<seq<char>>)
    ensures ps == [] <==> r > |s|
    decreases |s|, 1
  {
    if r == 0 then [[]] else PermutationsFrom(s, r, 0)
  }

  /** The arrangements of Permutations(s, r) whose first position is `i` or later. */
  function PermutationsFrom(s: seq<char>, r: nat, i: nat): (ps: seq<seq<char>>)
    requires r > 0
    ensures ps == [] <==> r > |s| || i >= |s|
    decreases |s|, 0, |s| - i
  {
    if i >= |s| then []
    else PrependAll(s[i], Permutations(RemoveAt(s, i), r - 1)) + PermutationsFrom(s, r, i + 1)
  }

  lemma SplitAt(s: seq<char>, i: nat)
    requires i < |s|
    ensures multiset(s) == multiset(RemoveAt(s, i)) + multiset{s[i]}
  {
    assert s == s[..i] + [s[i]] + s[i + 1..];
  }

  /** Every arrangement uses `r` of the letters of `s`. */
  lemma {:induction false} PermutationsSound(s: seq<char>, r: nat, t: seq<char>)
    requires t in Permutations(s, r)
    ensures |t| == r && multiset(t) <= multiset(s)
    decreases |s|, 1
  {
    if r > 0 {
      PermutationsFromSound(s, r, 0, t);
    }
  }

  lemma {:induction false} PermutationsFromSound(s: seq<char>, r: nat, i: nat, t: seq<char>)
    requires r > 0 && t in PermutationsFrom(s, r, i)
    ensures |t| == r && multiset(t) <= multiset(s)
    decreases |s|, 0, |s| - i
  {
    var rest := Permutations(RemoveAt(s, i), r - 1);
    if t in PrependAll(s[i], rest) {
      var k :| 0 <= k < |rest| && t == [s[i]] + rest[k];
      PermutationsSound(RemoveAt(s, i), r - 1, rest[k]);
      SplitAt(s, i);
    } else {
      PermutationsFromSound(s, r, i + 1, t);
    }
  }

  lemma {:induction false} InPermutationsFrom(s: seq<char>, r: nat, i: nat, j: nat, t: seq<char>)
    requires r > 0 && i <= j < |s|
    requires t in PrependAll(s[j], Permutations(RemoveAt(s, j), r - 1))
    ensures t in PermutationsFrom(s, r, i)
    decreases j - i
  {
    var here := PrependAll(s[i], Permutations(RemoveAt(s, i), r - 1));
    assert PermutationsFrom(s, r, i) == here + PermutationsFrom(s, r, i + 1);
    if i < j {
      InPermutationsFrom(s, r, i + 1, j, t);
    }
  }

  /** Matching the first letter of a rearrangement leaves rearrangements of the rest. */
  lemma TailRearranged(s: seq<char>, t: seq<char>, j: nat)
    requires multiset(t) == multiset(s) && j < |s| && 0 < |t| && s[j] == t[0]
    ensures multiset(t[1..]) == multiset(RemoveAt(s, j))
  {
    SplitAt(s, j);
    var rest, removed := multiset(t[1..]), multiset(RemoveAt(s, j));
    assert t == [t[0]] + t[1..];
    assert rest + multiset{t[0]} == removed + multiset{t[0]};
    forall c
      ensures rest[c] == removed[c]
    {
      assert (rest + multiset{t[0]})[c] == (removed + multiset{t[0]})[c];
    }
  }

  /** Every rearrangement of all the letters of `s` is among its permutations. */
  lemma {:induction false} PermutationsComplete(s: seq<char>, t: seq<char>)
    requires multiset(t) == multiset(s)
    ensures t in Permutations(s, |s|)
    decreases |s|
  {
    assert |t| == |multiset(t)| == |s|;
    if |s| > 0 {
      assert t[0] in multiset(s);
      var j :| 0 <= j < |s| && s[j] == t[0];
      var smaller := RemoveAt(s, j);
      TailRearranged(s, t, j);
      assert multiset(t[1..]) == multiset(smaller);
      PermutationsComplete(smaller, t[1..]);
      PrependedIn(s, j, t);
    }
  }

  /** Putting s[j] in front of a full permutation of the other letters gives a full
      permutation of `s`. */
  lemma PrependedIn(s: seq<char>, j: nat, t: seq<char>)
    requires j < |s| && t != [] && t[0] == s[j]
    requires t[1..] in Permutations(RemoveAt(s, j), |s| - 1)
    ensures t in Permutations(s, |s|)
  {
    InPrependAll(s[j], Permutations(RemoveAt(s, j), |s| - 1), t);
    InPermutationsFrom(s, |s|, 0, j, t);
  }

  /** A string that starts with `c` followed by one of `ps` is among PrependAll(c, ps). */
  lemma InPrependAll(c: char, ps: seq<seq<char>>, t: seq<char>)
    requires t != [] && t[0] == c && t[1..] in ps
    ensures t in PrependAll(c, ps)
  {
    var k :| 0 <= k < |ps| && ps[k] == t[1..];
    assert t == [c] + ps[k];
    assert PrependAll(c, ps)[k] == t;
  }

  /** The full-length permutations of `s` are exactly its rearrangements. */
  lemma PermutationsExactly(s: seq<char>, t: seq<char>)
    ensures t in Permutations(s, |s|) <==> multiset(t) == multiset(s)
  {
    if t in Permutations(s, |s|) {
      PermutationsSound(s, |s|, t);
      assert |multiset(t)| == |multiset(s)|;
      var d := multiset(s) - multiset(t);
      assert multiset(s) == multiset(t) + d;
      assert |d| == 0;
    }
    if multiset(t) == multiset(s) {
      PermutationsComplete(s, t);
    }
  }

  // ---------------------------------------------------------------------------------------
  // get_perm and get_configuration

  /** get_perm: the permutations of `per` of size `length`, each distinct arrangement once, in
      the order first produced. */
  method GetPerm(per: seq<char>, length: nat) returns (cleanDuplicates: seq<seq<char>>)
    ensures cleanDuplicates == FirstOccurrences(Permutations(per, length))
    ensures length == |per| ==>
      Distinct(cleanDuplicates) && forall t :: t in cleanDuplicates <==> multiset(t) == multiset(per)
  {
    var listPer := Permutations(per, length);
    cleanDuplicates := [];
    for n := 0 to |listPer|
      invariant cleanDuplicates == FirstOccurrences(listPer[..n])
    {
      var p0 := listPer[n];
      assert listPer[..n + 1] == listPer[..n] + [p0];
      if p0 in cleanDuplicates {
        continue;
      } else {
        cleanDuplicates := cleanDuplicates + [p0];
      }
    }
    assert listPer[..|listPer|] == listPer;
    if length == |per| {
      forall t
        ensures t in cleanDuplicates <==> multiset(t) == multiset(per)
      {
        PermutationsExactly(per, t);
      }
    }
  }

  /** The number of '-' signs in each of the sign strings the source lists for `numb` qubits,
      in the source's order: for five qubits "+++-", "++--", "+---", "----", "++++". */
  function ErrorCounts(numb: int): seq<nat>
    requires 3 <= numb <= 8
  {
    if numb == 3 then [0, 1, 2]
    else if numb == 4 then [0, 1, 2, 3]
    else if numb == 5 then [1, 2, 3, 4, 0]
    else if numb == 6 then [1, 2, 3, 4, 0, 5]
    else if numb == 7 then [1, 2, 3, 4, 5, 0, 6]
    else [1, 2, 3, 4, 5, 6, 0, 7]
  }

  /** The sign strings whose permutations make up the configurations of `numb` qubits: for
      each entry of ErrorCounts, that many '-' signs after '+' signs up to length numb - 1. */
  function SignMultisets(numb: int): (table: seq<seq<char>>)
    requires 3 <= numb <= 8
    ensures |table| == numb
  {
    var counts := ErrorCounts(numb);
    seq(|counts|, i requires 0 <= i < |counts| => Signs(numb - 1 - counts[i], counts[i]))
  }

  /** Some sign string of `table` holds exactly `k` '-' signs. */
  ghost predicate HasErrorCount(table: seq<seq<char>>, k: nat)
  {
    exists i :: 0 <= i < |table| && MinusCount(table[i]) == k
  }

  /** The error counts listed for `numb` qubits are 0 .. numb - 1, each once. */
  lemma {:induction false} ErrorCountsRange(numb: int, k: nat)
    requires 3 <= numb <= 8
    ensures forall i :: 0 <= i < numb ==> ErrorCounts(numb)[i] < numb
    ensures forall i, j :: 0 <= i < j < numb ==> ErrorCounts(numb)[i] != ErrorCounts(numb)[j]
    ensures k < numb ==> k in ErrorCounts(numb)
  {
    var counts := ErrorCounts(numb);
    if numb == 3 {
      assert counts == [0, 1, 2];
    } else if numb == 4 {
      assert counts == [0, 1, 2, 3];
    } else if numb == 5 {
      assert counts == [1, 2, 3, 4, 0];
    } else if numb == 6 {
      assert counts == [1, 2, 3, 4, 0, 5];
    } else if numb == 7 {
      assert counts == [1, 2, 3, 4, 5, 0, 6];
    } else {
      assert counts == [1, 2, 3, 4, 5, 6, 0, 7];
    }
    if k < numb {
      assert counts[if numb <= 4 then k else if k == 0 then numb - 2 + (if numb == 5 then 1 else 0)
        else if k == numb - 1 && numb > 5 then k else k - 1] == k;
    }
  }

  /** The table has one sign string of length numb - 1 for each error count 0 .. numb - 1. */
  lemma {:induction false} SignMultisetsCover(numb: int)
    requires 3 <= numb <= 8
    ensures forall i :: 0 <= i < |SignMultisets(numb)| ==>
      |SignMultisets(numb)[i]| == numb - 1 && IsSignString(SignMultisets(numb)[i])
    ensures forall i, j :: 0 <= i < j < |SignMultisets(numb)| ==>
      MinusCount(SignMultisets(numb)[i]) != MinusCount(SignMultisets(numb)[j])
    ensures forall k: nat :: k < numb ==> HasErrorCount(SignMultisets(numb), k)
  {
    var table, counts := SignMultisets(numb), ErrorCounts(numb);
    ErrorCountsRange(numb, 0);
    forall i | 0 <= i < numb
      ensures |table[i]| == numb - 1 && IsSignString(table[i]) && MinusCount(table[i]) == counts[i]
    {
      SignMultisetsRow(numb, i);
    }
    forall k: nat | k < numb
      ensures HasErrorCount(table, k)
    {
      ErrorCountsRange(numb, k);
      var i :| 0 <= i < numb && counts[i] == k;
      SignMultisetsRow(numb, i);
    }
  }

  /** Row i of the table has counts[i] '-' signs and numb - 1 signs in all. */
  lemma SignMultisetsRow(numb: int, i: nat)
    requires 3 <= numb <= 8 && i < numb
    ensures var row, count := SignMultisets(numb)[i], ErrorCounts(numb)[i];
      |row| == numb - 1 && IsSignString(row) && MinusCount(row) == count
  {
    ErrorCountsRange(numb, 0);
    var counts := ErrorCounts(numb);
    assert SignMultisets(numb)[i] == Signs(numb - 1 - counts[i], counts[i]);
  }

  /** The concatenated, deduplicated permutations of the sign strings of `table`, as
      get_configuration builds them. */
  function ConfigurationsOf(table: seq<seq<char>>, length: nat): seq<seq<char>>
  {
    if table == [] then []
    else
      ConfigurationsOf(table[..|table| - 1], length)
        + FirstOccurrences(Permutations(table[|table| - 1], length))
  }

  lemma DistinctAppend<T>(a: seq<T>, b: seq<T>)
    requires Distinct(a) && Distinct(b) && forall x :: x in a ==> x !in b
    ensures Distinct(a + b)
  {
    forall i, j | 0 <= i < j < |a + b|
      ensures (a + b)[i] != (a + b)[j]
    {
      if i < |a| && j >= |a| {
        assert (a + b)[i] in a && (a + b)[j] in b;
      }
    }
  }

  /** Concatenating the deduplicated permutations of pairwise non-rearrangeable strings lists
      each rearrangement of each of them exactly once. */
  lemma {:induction false} ConfigurationsOfExactly(table: seq<seq<char>>, length: nat)
    requires forall i :: 0 <= i < |table| ==> |table[i]| == length
    requires forall i, j :: 0 <= i < j < |table| ==> multiset(table[i]) != multiset(table[j])
    ensures Distinct(ConfigurationsOf(table, length))
    ensures forall t :: t in ConfigurationsOf(table, length) <==>
      exists i :: 0 <= i < |table| && multiset(t) == multiset(table[i])
  {
    if table != [] {
      var init, last := table[..|table| - 1], table[|table| - 1];
      ConfigurationsOfExactly(init, length);
      var before := ConfigurationsOf(init, length);
      var block := FirstOccurrences(Permutations(last, length));
      forall t
        ensures t in block <==> multiset(t) == multiset(last)
      {
        PermutationsExactly(last, t);
      }
      forall t | t in before
        ensures t !in block
      {
        var i :| 0 <= i < |init| && multiset(t) == multiset(init[i]);
        assert table[i] == init[i];
      }
      DistinctAppend(before, block);
      forall t
        ensures t in ConfigurationsOf(table, length) <==>
          exists i :: 0 <= i < |table| && multiset(t) == multiset(table[i])
      {
        if exists i :: 0 <= i < |table| && multiset(t) == multiset(table[i]) {
          var i :| 0 <= i < |table| && multiset(t) == multiset(table[i]);
          if i < |init| {
            assert multiset(t) == multiset(init[i]);
          }
        }
        if t in before {
          var i :| 0 <= i < |init| && multiset(t) == multiset(init[i]);
          assert table[i] == init[i];
        }
      }
    }
  }

  /** The configurations built from the table of `numb` qubits are every sign string of length
      numb - 1, each once. */
  lemma {:induction false} ConfigurationsOfTable(numb: int, configurations: seq<seq<char>>)
    requires 3 <= numb <= 8
    ensures configurations == ConfigurationsOf(SignMultisets(numb), numb - 1) ==>
      Distinct(configurations) && forall t :: t in configurations <==> IsSignString(t) && |t| == numb - 1
  {
    var table := SignMultisets(numb);
    SignMultisetsCover(numb);
    forall i, j | 0 <= i < j < |table|
      ensures multiset(table[i]) != multiset(table[j])
    {
      SameSignMultiset(table[i], table[j]);
    }
    ConfigurationsOfExactly(table, numb - 1);
    if configurations == ConfigurationsOf(table, numb - 1) {
      forall t
        ensures t in configurations <==> IsSignString(t) && |t| == numb - 1
      {
        RearrangementOfRow(numb, t);
      }
    }
  }

  /** A string rearranges some row of the table of `numb` qubits exactly when it is a sign
      string of length numb - 1. */
  lemma RearrangementOfRow(numb: int, t: seq<char>)
    requires 3 <= numb <= 8
    ensures (exists i :: 0 <= i < |SignMultisets(numb)| && multiset(t) == multiset(SignMultisets(numb)[i])) <==>
      IsSignString(t) && |t| == numb - 1
  {
    var table := SignMultisets(numb);
    SignMultisetsCover(numb);
    if i :| 0 <= i < |table| && multiset(t) == multiset(table[i]) {
      RearrangedSigns(table[i], t);
    }
    if IsSignString(t) && |t| == numb - 1 {
      SignCounts(t);
      assert HasErrorCount(table, MinusCount(t));
      var i :| 0 <= i < |table| && MinusCount(table[i]) == MinusCount(t);
      SameSignMultiset(table[i], t);
    }
  }

  /** The configurations of one more table row are those of the rows before it, followed by
      the deduplicated permutations of that row. */
  lemma ConfigurationsOfStep(table: seq<seq<char>>, length: nat, k: nat)
    requires k < |table|
    ensures ConfigurationsOf(table[..k + 1], length) ==
      ConfigurationsOf(table[..k], length) + FirstOccurrences(Permutations(table[k], length))
  {
    assert table[..k + 1][..k] == table[..k];
  }

  /** The loop of get_configuration: extend the list with get_perm of each table row in turn. */
  method CollectConfigurations(permutations: seq<seq<char>>, length: nat) returns (configurations: seq<seq<char>>)
    ensures configurations == ConfigurationsOf(permutations, length)
  {
    configurations := [];
    for k := 0 to |permutations|
      invariant configurations == ConfigurationsOf(permutations[..k], length)
    {
      var newPerms := GetPerm(permutations[k], length);
      ConfigurationsOfStep(permutations, length, k);
      configurations := configurations + newPerms;
    }
    assert permutations[..|permutations|] == permutations;
  }

  /** get_configuration: for 3 to 8 qubits, every configuration of the numb - 1 measured qubits
      exactly once; for any other size, no configuration at all. */
  method GetConfiguration(numb: int) returns (configurations: seq<seq<char>>)
    ensures 3 <= numb <= 8 ==> configurations == ConfigurationsOf(SignMultisets(numb), numb - 1)
    ensures 3 <= numb <= 8 ==> Distinct(configurations)
    ensures 3 <= numb <= 8 ==> forall t :: t in configurations <==> IsSignString(t) && |t| == numb - 1
    ensures !(3 <= numb <= 8) ==> configurations == []
  {
    if !(3 <= numb <= 8) {
      return [];
    }
    configurations := CollectConfigurations(SignMultisets(numb), numb - 1);
    ConfigurationsOfTable(numb, configurations);
  }
}
