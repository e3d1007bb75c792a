/** The per-molecule reaction data (reaction/base_molecule.go): atom-atom
    mapping numbers, reacting-centre marks on bonds, inversion marks on atoms,
    the coordinate flag and the selection. */
module BaseMolecules {

  /** Go's `make([]int, n)`: n zeros. */
  function Zeros(n: nat): (z: seq<int>)
    ensures |z| == n && forall k :: 0 <= k < n ==> z[k] == 0
  {
    seq(n, _ => 0)
  }

  /** Go's `make([]bool, n)`: n times `false`. */
  function Unset(n: nat): (z: seq<bool>)
    ensures |z| == n && forall k :: 0 <= k < n ==> !z[k]
  {
    seq(n, _ => false)
  }

  /** `BaseMolecule`. Go slices become sequences that the methods replace. */
  class BaseMolecule {
    var atomMapping: seq<int>
    var bondReactingCenter: seq<int>
    var atomInversion: seq<int>
    var haveXYZ: bool
    var selected: seq<bool>

    /** `NewBaseMolecule`: every array empty and no coordinates. */
    constructor ()
      ensures atomMapping == [] && bondReactingCenter == [] && atomInversion == []
      ensures !haveXYZ && selected == []
    {
      atomMapping := [];
      bondReactingCenter := [];
      atomInversion := [];
      haveXYZ := false;
      selected := [];
    }

    /** `Clone`: each array is replaced by a new zeroed one of the length of
        `other`'s, which then receives `other`'s entries; the coordinate flag
        is copied. When `other` is this molecule the copy reads the fresh
        zeroed arrays, so the mapping numbers and marks become zeros and the
        selection is cleared. The two mapping arguments of the Go method are
        never read. */
    method CloneFrom(other: BaseMolecule)
      modifies this
      ensures other != this ==> atomMapping == old(other.atomMapping)
      ensures other != this ==> bondReactingCenter == old(other.bondReactingCenter)
      ensures other != this ==> atomInversion == old(other.atomInversion)
      ensures other != this ==> selected == old(other.selected)
      ensures other == this ==> atomMapping == Zeros(old(|atomMapping|))
      ensures other == this ==> bondReactingCenter == Zeros(old(|bondReactingCenter|))
      ensures other == this ==> atomInversion == Zeros(old(|atomInversion|))
      ensures other == this ==> selected == Unset(old(|selected|))
      ensures haveXYZ == old(other.haveXYZ)
    {
      atomMapping := Zeros(|other.atomMapping|);
      atomMapping := other.atomMapping;
      bondReactingCenter := Zeros(|other.bondReactingCenter|);
      bondReactingCenter := other.bondReactingCenter;
      atomInversion := Zeros(|other.atomInversion|);
      atomInversion := other.atomInversion;
      haveXYZ := other.haveXYZ;
      selected := Unset(|other.selected|);
      selected := other.selected;
    }

    /** `VertexBegin`. */
    function VertexBegin(): (i: int)
      ensures i == 0
    {
      0
    }

    /** `VertexEnd`: one vertex per atom-mapping entry. */
    function VertexEnd(): (n: int)
      reads this
      ensures n == |atomMapping|
    {
      |atomMapping|
    }

    /** `VertexNext`: vertices are numbered consecutively. */
    function VertexNext(i: int): (j: int)
      ensures j == i + 1
    {
      i + 1
    }

    /** `HasSelection`: some selection entry is set. */
    method HasSelection() returns (r: bool)
      ensures r <==> exists i :: 0 <= i < |selected| && selected[i]
    {
      var i := 0;
      while i < |selected|
        invariant 0 <= i <= |selected|
        invariant forall k :: 0 <= k < i ==> !selected[k]
      {
        if selected[i] {
          return true;
        }
        i := i + 1;
      }
      return false;
    }
  }
}
