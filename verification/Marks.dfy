/** Flags that loops raise one by one, and how many are left. */
module Marks {
  function Unmarked(marks: seq<bool>): (n: nat) {
    if marks == [] then 0 else (if marks[0] then 0 else 1) + Unmarked(marks[1..])
  }

  lemma {:induction false} MarkOne(marks: seq<bool>, k: nat)
    requires k < |marks| && !marks[k]
    ensures Unmarked(marks[k := true]) == Unmarked(marks) - 1
  {
    if k == 0 {
      assert marks[0 := true][1..] == marks[1..];
    } else {
      assert marks[k := true][1..] == marks[1..][k - 1 := true];
      MarkOne(marks[1..], k - 1);
    }
  }

  lemma {:induction false} NoneMarked(marks: seq<bool>)
    requires forall i :: 0 <= i < |marks| ==> !marks[i]
    ensures Unmarked(marks) == |marks|
  {
    if marks != [] { NoneMarked(marks[1..]); }
  }

  lemma {:induction false} AllMarked(marks: seq<bool>)
    ensures Unmarked(marks) == 0 <==> forall i :: 0 <= i < |marks| ==> marks[i]
    ensures Unmarked(marks) <= |marks|
  {
    if marks != [] {
      AllMarked(marks[1..]);
      assert forall i :: 0 < i < |marks| ==> marks[i] == marks[1..][i - 1];
    }
  }
}
