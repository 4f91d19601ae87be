/** Basis assignment (get_B): the Pauli basis in which each qubit is measured. Qubit 0
    takes the logical observable's basis. Every other qubit takes the first non-identity
    label that a stabilizer holds at its index. */
module Basis {
  import opened Outcomes

  /** The label that position `i` ends up with after scanning `stabilizers` in list order,
      one stabilizer at a time: an entry that is no longer 'I' is kept, and an 'I' entry takes
      the stabilizer's label at `i` when that label is not 'I'. Stabilizers too short to have
      an index `i` are skipped. */
  function FirstLabel(stabilizers: seq<seq<char>>, i: nat): (found: char)
    ensures found != 'I' ==> exists s :: s in stabilizers && i < |s| && s[i] == found
  {
    if stabilizers == [] then 'I'
    else
      var earlier := FirstLabel(stabilizers[..|stabilizers| - 1], i);
      var last := stabilizers[|stabilizers| - 1];
      if earlier != 'I' then earlier
      else if i < |last| && last[i] != 'I' then last[i]
      else 'I'
  }

  /** The scan picks the first stabilizer, in list order, that holds a label other than 'I' at
      index `i`; it yields 'I' exactly when there is none. */
  lemma {:induction false} FirstLabelIsFirst(stabilizers: seq<seq<char>>, i: nat)
    ensures FirstLabel(stabilizers, i) == 'I' <==>
      forall k :: 0 <= k < |stabilizers| && i < |stabilizers[k]| ==> stabilizers[k][i] == 'I'
    ensures FirstLabel(stabilizers, i) != 'I' ==>
      exists k :: 0 <= k < |stabilizers| && i < |stabilizers[k]| &&
        stabilizers[k][i] == FirstLabel(stabilizers, i) &&
        forall k' :: 0 <= k' < k && i < |stabilizers[k']| ==> stabilizers[k'][i] == 'I'
  {
    if stabilizers != [] {
      var init := stabilizers[..|stabilizers| - 1];
      FirstLabelIsFirst(init, i);
      assert forall k :: 0 <= k < |init| ==> stabilizers[k] == init[k];
      if FirstLabel(init, i) != 'I' {
        var k :| 0 <= k < |init| && i < |init[k]| && init[k][i] == FirstLabel(init, i) &&
          forall k' :: 0 <= k' < k && i < |init[k']| ==> init[k'][i] == 'I';
        assert stabilizers[k] == init[k];
      }
    }
  }

  /** Scanning one more stabilizer updates the label of position `i` as get_B's inner loop does. */
  lemma FirstLabelStep(stabilizers: seq<seq<char>>, k: nat, i: nat)
    requires k < |stabilizers|
    ensures FirstLabel(stabilizers[..k + 1], i) ==
      var found := FirstLabel(stabilizers[..k], i);
      if found != 'I' then found
      else if i < |stabilizers[k]| && stabilizers[k][i] != 'I' then stabilizers[k][i]
      else 'I'
  {
    assert stabilizers[..k + 1][..k] == stabilizers[..k];
  }

  /** The basis list before the scan of the stabilizers. Qubit 0 gets the logical basis when
      `logical` is 'X', 'Y' or 'Z', and no entry at all otherwise. Every other qubit gets 'I'. */
  function InitialBasis(size: nat, logical: char): (b: seq<char>)
    ensures size == 0 ==> b == []
    ensures size > 0 && logical in "XYZ" ==> |b| == size && b[0] == logical
    ensures size > 0 && logical !in "XYZ" ==> |b| == size - 1
    ensures forall i :: 0 <= i < |b| && (i > 0 || logical !in "XYZ") ==> b[i] == 'I'
  {
    if size == 0 then []
    else if logical in "XYZ" then [logical] + seq(size - 1, _ => 'I')
    else seq(size - 1, _ => 'I')
  }

  /** An entry that is not 'I' is kept; an 'I' entry is replaced by what the scan found. */
  function Merge(initial: char, found: char): char
  {
    if initial != 'I' then initial else found
  }

  /** One pass of get_B's inner loop: the labels of `stabilizers[k]` fill the 'I' entries of
      `B`. The pass fails with IndexError when the stabilizer is longer than `B`. */
  method ScanStabilizer(B: seq<char>, ghost initial: seq<char>, stabilizers: seq<seq<char>>, k: nat)
    returns (r: Result<seq<char>>)
    requires k < |stabilizers| && |B| == |initial|
    requires forall j :: 0 <= j < |B| ==> B[j] == Merge(initial[j], FirstLabel(stabilizers[..k], j))
    ensures r.Err? <==> |stabilizers[k]| > |B|
    ensures r.Err? ==> r.error == IndexError
    ensures r.Ok? ==> |r.value| == |B|
    ensures r.Ok? ==>
      forall j :: 0 <= j < |B| ==> r.value[j] == Merge(initial[j], FirstLabel(stabilizers[..k + 1], j))
  {
    var stab := stabilizers[k];
    var labels := B;
    for i := 0 to |stab|
      invariant |labels| == |B| && i <= |B|
      invariant forall j :: 0 <= j < i ==> labels[j] == Merge(initial[j], FirstLabel(stabilizers[..k + 1], j))
      invariant forall j :: i <= j < |B| ==> labels[j] == B[j]
    {
      if i >= |labels| {
        return Err(IndexError);
      }
      FirstLabelStep(stabilizers, k, i);
      if labels[i] == 'I' && stab[i] != 'I' {
        labels := labels[..i] + labels[i + 1..];
        labels := labels[..i] + [stab[i]] + labels[i..];
      }
    }
    forall j | |stab| <= j < |B|
      ensures labels[j] == Merge(initial[j], FirstLabel(stabilizers[..k + 1], j))
    {
      FirstLabelStep(stabilizers, k, j);
    }
    return Ok(labels);
  }

  /** get_B: the measurement basis of each qubit. The function fails with IndexError when
      `stabilizers` is empty (the source reads S[0]). It also fails when a stabilizer is longer
      than the initial basis list, which is always the case when `logical` is not X, Y or Z. */
  method GetB(stabilizers: seq<seq<char>>, logical: char) returns (r: Result<seq<char>>)
    ensures r.Err? ==> r.error == IndexError
    ensures r.Err? <==>
      || |stabilizers| == 0
      || (logical !in "XYZ" && |stabilizers[0]| > 0)
      || exists k :: 0 <= k < |stabilizers| && |stabilizers[k]| > |stabilizers[0]|
    ensures r.Ok? ==> |r.value| == |stabilizers[0]|
    ensures r.Ok? && |r.value| > 0 ==> r.value[0] == logical
    ensures r.Ok? ==> forall i :: 1 <= i < |r.value| ==> r.value[i] == FirstLabel(stabilizers, i)
  {
    if |stabilizers| == 0 {
      return Err(IndexError);
    }
    var B: seq<char> := [];
    for i := 0 to |stabilizers[0]|
      invariant B == InitialBasis(i, logical)
    {
      if i == 0 {
        if logical == 'Z' {
          B := B + ['Z'];
        } else if logical == 'X' {
          B := B + ['X'];
        } else if logical == 'Y' {
          B := B + ['Y'];
        }
      } else {
        B := B + ['I'];
      }
    }
    ghost var initial := B;
    for k := 0 to |stabilizers|
      invariant |B| == |initial|
      invariant forall k' :: 0 <= k' < k ==> |stabilizers[k']| <= |initial|
      invariant forall j :: 0 <= j < |B| ==> B[j] == Merge(initial[j], FirstLabel(stabilizers[..k], j))
    {
      var scanned := ScanStabilizer(B, initial, stabilizers, k);
      if scanned.Err? {
        return scanned;
      }
      B := scanned.value;
    }
    assert stabilizers[..|stabilizers|] == stabilizers;
    return Ok(B);
  }
}
