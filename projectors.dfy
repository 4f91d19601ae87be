/** The projector layout of meas_projectors, kept as factor labels. Each full-system
    projector is a Kronecker product of 4x4 factors, one per qubit, listed left to right. The
    numeric matrices are not modelled. */
module Projectors {

  datatype Pauli = X | Y | Z

  /** A 4x4 Kronecker factor. Identity is the 4x4 identity. Spin is an unrotated
      spin-sector projector, used for qubit 0. Rotated is a single-qubit projector conjugated by
      the measurement rotation, used for qubits 1 and up. `up` says which eigenvector it
      projects on. */
  datatype Factor = Identity | Spin(basis: Pauli, up: bool) | Rotated(basis: Pauli, up: bool)

  /** The Pauli basis a label selects: 'X' and 'Y' select themselves. Any other label,
      including 'I', selects Z. */
  function Selected(name: char): (p: Pauli)
    ensures name == 'X' <==> p == X
    ensures name == 'Y' <==> p == Y
  {
    if name == 'X' then X else if name == 'Y' then Y else Z
  }

  /** The factor meas_projectors puts at position `j` of the (up or down) projector of qubit
      `i`, for basis assignment `B`. */
  function FactorAt(B: seq<char>, i: nat, j: nat, up: bool): (f: Factor)
    requires i < |B| && j < |B|
    ensures f.Identity? <==> i != j
    ensures f.Spin? <==> i == 0 && j == 0
    ensures !f.Identity? ==> f.basis == Selected(B[i]) && f.up == up
  {
    if i == 0 && j == 0 then Spin(Selected(B[0]), up)
    else if i == j then Rotated(Selected(B[i]), up)
    else Identity
  }

  /** meas_projectors: for each qubit `i` the pair (up, down) of full-system projectors. Each
      pair has |B| factors. Position `i` holds the projector of the basis B[i] selects. All other
      positions hold the identity. Qubit 0's projector is an unrotated spin projector. */
  method MeasProjectors(B: seq<char>) returns (pattern: seq<(seq<Factor>, seq<Factor>)>)
    ensures |pattern| == |B|
    ensures forall i :: 0 <= i < |B| ==> |pattern[i].0| == |B| && |pattern[i].1| == |B|
    ensures forall i, j :: 0 <= i < |B| && 0 <= j < |B| ==>
      pattern[i].0[j] == FactorAt(B, i, j, true) && pattern[i].1[j] == FactorAt(B, i, j, false)
  {
    pattern := [];
    for i := 0 to |B|
      invariant |pattern| == i
      invariant forall i' :: 0 <= i' < i ==> |pattern[i'].0| == |B| && |pattern[i'].1| == |B|
      invariant forall i', j :: 0 <= i' < i && 0 <= j < |B| ==>
        pattern[i'].0[j] == FactorAt(B, i', j, true) && pattern[i'].1[j] == FactorAt(B, i', j, false)
    {
      var opUp: seq<Factor>, opDown: seq<Factor>;
      if i == 0 {
        if B[i] == 'X' {
          opUp, opDown := [Spin(X, true)], [Spin(X, false)];
        } else if B[i] == 'Y' {
          opUp, opDown := [Spin(Y, true)], [Spin(Y, false)];
        } else {
          opUp, opDown := [Spin(Z, true)], [Spin(Z, false)];
        }
      } else {
        opUp, opDown := [Identity], [Identity];
      }
      for j := 1 to |B|
        invariant |opUp| == j && |opDown| == j
        invariant forall j' :: 0 <= j' < j ==>
          opUp[j'] == FactorAt(B, i, j', true) && opDown[j'] == FactorAt(B, i, j', false)
      {
        if B[i] == 'X' {
          if i == j {
            opUp, opDown := opUp + [Rotated(X, true)], opDown + [Rotated(X, false)];
          } else {
            opUp, opDown := opUp + [Identity], opDown + [Identity];
          }
        } else if B[i] == 'Y' {
          if i == j {
            opUp, opDown := opUp + [Rotated(Y, true)], opDown + [Rotated(Y, false)];
          } else {
            opUp, opDown := opUp + [Identity], opDown + [Identity];
          }
        } else {
          if i == j {
            opUp, opDown := opUp + [Rotated(Z, true)], opDown + [Rotated(Z, false)];
          } else {
            opUp, opDown := opUp + [Identity], opDown + [Identity];
          }
        }
      }
      pattern := pattern + [(opUp, opDown)];
    }
  }

  /** In every pair the two projectors differ only at the qubit they measure. The factor there
      projects on opposite eigenvectors of one basis. */
  lemma UpDownComplementary(B: seq<char>, i: nat, j: nat)
    requires i < |B| && j < |B|
    ensures FactorAt(B, i, j, true) != FactorAt(B, i, j, false) <==> i == j
    ensures i == j ==>
      FactorAt(B, i, j, true).basis == FactorAt(B, i, j, false).basis == Selected(B[i])
  {
  }
}
