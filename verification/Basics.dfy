/** Notions shared by several modules. */
module Basics {

  function Abs(x: real): real { if x < 0.0 then -x else x }

  function Min(a: nat, b: nat): nat { if a < b then a else b }

  ghost predicate AllDistinct<T>(s: seq<T>) {
    forall i, j :: 0 <= i < j < |s| ==> s[i] != s[j]
  }
}
