/** Value types shared by the driver models. */
module Prelude {
  datatype Option<+T> = None | Some(value: T)

  /** No element occurs at two positions. */
  ghost predicate NoDup<T>(s: seq<T>) {
    forall i, j :: 0 <= i < j < |s| ==> s[i] != s[j]
  }

  function Elems<T>(s: seq<T>): set<T> {
    set x | x in s
  }

  function Reversed<T>(s: seq<T>): (r: seq<T>)
    ensures |r| == |s| && forall i :: 0 <= i < |s| ==> r[i] == s[|s| - 1 - i]
  {
    seq(|s|, i requires 0 <= i < |s| => s[|s| - 1 - i])
  }

  /** A number above every member of a finite set. */
  lemma {:induction false} FreshId(ids: set<nat>) returns (h: nat)
    ensures forall i :: i in ids ==> i < h
  {
    if ids == {} {
      h := 0;
    } else {
      var i :| i in ids;
      var below := FreshId(ids - {i});
      h := if i < below then below else i + 1;
      assert forall j :: j in ids ==> j == i || j in ids - {i};
    }
  }
}
