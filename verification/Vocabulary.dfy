/**
  The `seen` set plus list idiom that builds a vocabulary in order of first
  appearance, and the {name: position} dict made from it.
*/
module Vocabulary {
  import opened Basics

  /** The distinct names in order of first appearance. */
  function Distinct(names: seq<string>): (r: seq<string>)
    ensures AllDistinct(r)
  {
    if names == [] then []
    else
      var earlier := Distinct(names[..|names| - 1]);
      var name := names[|names| - 1];
      if name in earlier then earlier else earlier + [name]
  }

  lemma DistinctSnoc(names: seq<string>, name: string)
    ensures Distinct(names + [name]) == Distinct(names) + if name in Distinct(names) then [] else [name]
  {
  }

  lemma {:induction false} DistinctKeepsAll(names: seq<string>)
    ensures forall x :: x in Distinct(names) <==> x in names
  {
    if names == [] {
    } else {
      var p := names[..|names| - 1];
      DistinctKeepsAll(p);
      assert names == p + [names[|names| - 1]];
    }
  }

  lemma {:induction false} DistinctSize(ids: seq<string>)
    requires AllDistinct(ids)
    ensures |set x | x in ids| == |ids|
  {
    if ids == [] {
    } else {
      var p := ids[..|ids| - 1];
      DistinctSize(p);
      assert (set x | x in ids) == (set x | x in p) + {ids[|ids| - 1]};
    }
  }

  /** Extends a vocabulary by further names, in place in the original. */
  method AddNames(known: seq<string>, seen: set<string>, more: seq<string>, ghost before: seq<string>)
    returns (names: seq<string>, seen': set<string>)
    requires known == Distinct(before) && seen == set x | x in known
    ensures names == Distinct(before + more) && seen' == set x | x in names
  {
    hide Distinct;
    names, seen' := known, seen;
    assert before + more[..0] == before;
    for k := 0 to |more|
      invariant names == Distinct(before + more[..k]) && seen' == set x | x in names
    {
      assert before + more[..k + 1] == (before + more[..k]) + [more[k]];
      DistinctSnoc(before + more[..k], more[k]);
      if more[k] !in seen' {
        seen' := seen' + {more[k]};
        names := names + [more[k]];
      }
    }
    assert more[..|more|] == more;
  }

  /** {name: i for i, name in enumerate(names)} */
  method IndexOf(names: seq<string>) returns (index: map<string, nat>)
    requires AllDistinct(names)
    ensures forall x :: x in index <==> x in names
    ensures forall x :: x in index ==> index[x] < |names| && names[index[x]] == x
    ensures forall i :: 0 <= i < |names| ==> names[i] in index && index[names[i]] == i
  {
    index := map[];
    for k := 0 to |names|
      invariant forall x :: x in index <==> x in names[..k]
      invariant forall i :: 0 <= i < k ==> names[i] in index && index[names[i]] == i
      invariant forall x :: x in index ==> index[x] < k && names[index[x]] == x
    {
      index := index[names[k] := k];
    }
    assert names[..|names|] == names;
  }
}
