/** A sequence that is several parts one after another, said by positions. */
module Splicing {
  /** Where part `j` starts. */
  function Offset<T>(parts: seq<seq<T>>, j: nat): nat
    requires j <= |parts|
  {
    if j == 0 then 0 else Offset(parts, j - 1) + |parts[j - 1]|
  }

  ghost predicate IsJoin<T>(parts: seq<seq<T>>, whole: seq<T>) {
    && |whole| == Offset(parts, |parts|)
    && forall j, k :: 0 <= j < |parts| && 0 <= k < |parts[j]| ==> StandsAt(whole, Offset(parts, j) + k, parts[j][k])
  }

  ghost predicate StandsAt<T>(whole: seq<T>, i: nat, x: T) { i < |whole| && whole[i] == x }

  lemma {:induction false} OffsetPrefix<T>(parts: seq<seq<T>>, more: seq<seq<T>>, j: nat)
    requires j <= |parts|
    ensures Offset(parts + more, j) == Offset(parts, j)
    decreases j
  {
    if j > 0 {
      OffsetPrefix(parts, more, j - 1);
      assert (parts + more)[j - 1] == parts[j - 1];
    }
  }

  lemma JoinSnoc<T>(parts: seq<seq<T>>, part: seq<T>, whole: seq<T>)
    requires IsJoin(parts, whole)
    ensures IsJoin(parts + [part], whole + part)
  {
    var n, all := |parts|, parts + [part];
    OffsetPrefix(parts, [part], n);
    assert all[n] == part;
    forall j, k | 0 <= j < |all| && 0 <= k < |all[j]|
      ensures StandsAt(whole + part, Offset(all, j) + k, all[j][k])
    {
      OffsetPrefix(parts, [part], j);
      if j < n { assert all[j] == parts[j] && StandsAt(whole, Offset(parts, j) + k, parts[j][k]); }
    }
  }

  lemma {:induction false} OffsetCons<T>(first: seq<T>, parts: seq<seq<T>>, j: nat)
    requires j <= |parts|
    ensures Offset([first] + parts, j + 1) == |first| + Offset(parts, j)
    decreases j
  {
    var all := [first] + parts;
    if j > 0 {
      OffsetCons(first, parts, j - 1);
      assert all[j] == parts[j - 1];
    } else {
      assert Offset(all, 0) == 0 && all[0] == first;
    }
  }

  lemma JoinCons<T>(first: seq<T>, parts: seq<seq<T>>, rest: seq<T>)
    requires IsJoin(parts, rest)
    ensures IsJoin([first] + parts, first + rest)
  {
    var all := [first] + parts;
    OffsetCons(first, parts, |parts|);
    forall j, k | 0 <= j < |all| && 0 <= k < |all[j]|
      ensures StandsAt(first + rest, Offset(all, j) + k, all[j][k])
    {
      if j > 0 {
        OffsetCons(first, parts, j - 1);
        assert all[j] == parts[j - 1] && StandsAt(rest, Offset(parts, j - 1) + k, parts[j - 1][k]);
      }
    }
  }

  lemma JoinNothing<T>()
    ensures IsJoin<T>([], [])
  {
  }

  /** Parts of one length start at its multiples. */
  lemma {:induction false} EvenOffset<T>(parts: seq<seq<T>>, size: nat, j: nat)
    requires j <= |parts| && forall i :: 0 <= i < |parts| ==> |parts[i]| == size
    ensures Offset(parts, j) == j * size
    decreases j
  {
    if j > 0 { EvenOffset(parts, size, j - 1); }
  }
}
