/**
 * The walk that both `GetPositionAtLength` functions perform over the
 * segment lengths: while the remaining length is at least the current
 * segment's length, subtract it and move to the next segment.
 */
module Traversal {

  /** Sum of a sequence of lengths, from the front. */
  function Sum(ls: seq<real>): real
  {
    if ls == [] then 0.0 else ls[0] + Sum(ls[1..])
  }

  ghost predicate NonNegative(ls: seq<real>)
  {
    forall i :: 0 <= i < |ls| ==> ls[i] >= 0.0
  }

  /**
   * The segment the walk stops at (`reachedSegmentIdx`) and the residual
   * length left over. The index is `|ls|` when every segment was consumed.
   */
  function Locate(ls: seq<real>, l: real): (nat, real)
  {
    if ls == [] then (0, l)
    else if l >= ls[0] then
      var (k, r) := Locate(ls[1..], l - ls[0]);
      (k + 1, r)
    else (0, l)
  }

  /** Adding one more length at the end: what the accumulating loop of `calculateLength` relies on. */
  lemma {:induction false} SumSnoc(ls: seq<real>, x: real)
    ensures Sum(ls + [x]) == Sum(ls) + x
  {
    if ls == [] {
      assert [x][1..] == [];
    } else {
      assert (ls + [x])[1..] == ls[1..] + [x];
      SumSnoc(ls[1..], x);
    }
  }

  lemma {:induction false} SumNonNegative(ls: seq<real>)
    requires NonNegative(ls)
    ensures Sum(ls) >= 0.0
  {
    if ls != [] {
      SumNonNegative(ls[1..]);
    }
  }

  /**
   * The walk has consumed exactly the lengths before the segment it stops
   * at, every one of which was at most what remained, and it stops either
   * past the end or on a segment longer than the residual.
   */
  lemma {:induction false} LocateConsumesPrefix(ls: seq<real>, l: real)
    ensures Locate(ls, l).0 <= |ls|
    ensures Locate(ls, l).1 == l - Sum(ls[..Locate(ls, l).0])
    ensures Locate(ls, l).0 < |ls| ==> Locate(ls, l).1 < ls[Locate(ls, l).0]
  {
    if ls != [] && l >= ls[0] {
      LocateConsumesPrefix(ls[1..], l - ls[0]);
      var k := Locate(ls[1..], l - ls[0]).0;
      assert ls[..k + 1][1..] == ls[1..][..k];
    } else {
      assert ls[..0] == [];
    }
  }

  /**
   * The key fact about the walk: when the lengths are non-negative and
   * 0 <= l < their sum, the walk stops inside the sequence, on a segment
   * of positive length, with a residual in [0, that length). So a segment
   * of length 0 (a move or close marker) never owns the residual.
   */
  lemma {:induction false} LocateOwner(ls: seq<real>, l: real)
    requires NonNegative(ls)
    requires 0.0 <= l < Sum(ls)
    ensures Locate(ls, l).0 < |ls|
    ensures 0.0 <= Locate(ls, l).1 < ls[Locate(ls, l).0]
    ensures ls[Locate(ls, l).0] > 0.0
  {
    assert ls != [];
    if l >= ls[0] {
      assert NonNegative(ls[1..]);
      LocateOwner(ls[1..], l - ls[0]);
    }
  }

  /**
   * A walk from 0 over non-negative lengths skips exactly the zero-length
   * segments at the front and leaves nothing over.
   */
  lemma {:induction false} LocateZero(ls: seq<real>)
    requires NonNegative(ls)
    ensures Locate(ls, 0.0).0 <= |ls|
    ensures Locate(ls, 0.0).1 == 0.0
    ensures forall j :: 0 <= j < Locate(ls, 0.0).0 ==> ls[j] == 0.0
  {
    if ls != [] && 0.0 >= ls[0] {
      assert NonNegative(ls[1..]);
      LocateZero(ls[1..]);
    }
  }
}
