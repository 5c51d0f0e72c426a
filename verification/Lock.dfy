/** Whether the manifest reaches every package of the lock file:
    `lock_reached` of deps.c. */
module Lock {
  import opened Deps
  import opened Marks

  /** Places in the graph, each needed by the one before it. */
  predicate Path(roots: seq<Name>, graph: seq<Package>, p: seq<nat>) {
    && |p| > 0 && (forall j :: 0 <= j < |p| ==> p[j] < |graph|)
    && graph[p[0]].name in roots
    && forall j :: 0 < j < |p| ==> graph[p[j]].name in graph[p[j - 1]].needs
  }

  ghost predicate Reached(roots: seq<Name>, graph: seq<Package>, i: nat) {
    exists p :: Path(roots, graph, p) && p[|p| - 1] == i
  }

  lemma RootReached(roots: seq<Name>, graph: seq<Package>, i: nat)
    requires i < |graph| && graph[i].name in roots
    ensures Reached(roots, graph, i)
  {
    assert Path(roots, graph, [i]);
  }

  lemma NeedReached(roots: seq<Name>, graph: seq<Package>, i: nat, k: nat)
    requires Reached(roots, graph, i) && i < |graph| && k < |graph| && graph[k].name in graph[i].needs
    ensures Reached(roots, graph, k)
  {
    var p :| Path(roots, graph, p) && p[|p| - 1] == i;
    var q := p + [k];
    forall j | 0 < j < |q| ensures graph[q[j]].name in graph[q[j - 1]].needs {
      if j < |p| { assert graph[p[j]].name in graph[p[j - 1]].needs; }
    }
    assert Path(roots, graph, q);
  }

  /** A marking that holds the roots and is closed holds all that is reached. */
  lemma {:induction false} ClosedMarks(roots: seq<Name>, graph: seq<Package>, marks: seq<bool>, p: seq<nat>)
    requires |marks| == |graph| && Path(roots, graph, p)
    requires forall i :: 0 <= i < |graph| && graph[i].name in roots ==> marks[i]
    requires Closed(graph, marks)
    ensures marks[p[|p| - 1]]
    decreases |p|
  {
    if |p| > 1 {
      assert Path(roots, graph, p[..|p| - 1]);
      ClosedMarks(roots, graph, marks, p[..|p| - 1]);
      assert graph[p[|p| - 1]].name in graph[p[|p| - 2]].needs;
      assert ClosedAt(graph, marks, p[|p| - 2]);
    }
  }

  predicate ClosedAt(graph: seq<Package>, marks: seq<bool>, i: nat)
    requires |marks| == |graph| && i < |graph|
  {
    marks[i] ==> forall k :: 0 <= k < |graph| && graph[k].name in graph[i].needs ==> marks[k]
  }

  predicate Closed(graph: seq<Package>, marks: seq<bool>)
    requires |marks| == |graph|
  {
    forall i :: 0 <= i < |graph| ==> ClosedAt(graph, marks, i)
  }

  /** Every mark stands for a package that is reached. */
  ghost predicate Earned(roots: seq<Name>, graph: seq<Package>, marks: seq<bool>) {
    |marks| == |graph| && forall i :: 0 <= i < |graph| && marks[i] ==> Reached(roots, graph, i)
  }

  method MarkRoots(roots: seq<Name>, graph: seq<Package>) returns (marks: seq<bool>)
    ensures Earned(roots, graph, marks)
    ensures forall i :: 0 <= i < |graph| && graph[i].name in roots ==> marks[i]
  {
    var reached := new bool[|graph|](_ => false);
    var i := 0;
    while i < |graph|
      invariant 0 <= i <= |graph|
      invariant forall k :: 0 <= k < i ==> (reached[k] <==> graph[k].name in roots)
      invariant forall k :: i <= k < |graph| ==> !reached[k]
    {
      var j := 0;
      while j < |roots| && !reached[i]
        invariant 0 <= j <= |roots|
        invariant reached[i] ==> graph[i].name in roots
        invariant !reached[i] ==> graph[i].name !in roots[..j]
        invariant forall k :: 0 <= k < i ==> (reached[k] <==> graph[k].name in roots)
        invariant forall k :: i < k < |graph| ==> !reached[k]
      {
        reached[i] := graph[i].name == roots[j];
        j := j + 1;
      }
      if !reached[i] { assert roots[..j] == roots; }
      i := i + 1;
    }
    marks := reached[..];
    forall k | 0 <= k < |graph| && marks[k] ensures Reached(roots, graph, k) { RootReached(roots, graph, k); }
  }

  /** Mark every package of the name that is not marked. */
  method MarkNeed(roots: seq<Name>, graph: seq<Package>, reached: array<bool>, i: nat, need: Name) returns (grew: bool)
    requires reached.Length == |graph| && i < |graph| && reached[i] && need in graph[i].needs
    requires Earned(roots, graph, reached[..])
    modifies reached
    ensures Earned(roots, graph, reached[..])
    ensures forall k :: 0 <= k < |graph| && old(reached[k]) ==> reached[k]
    ensures forall k :: 0 <= k < |graph| && graph[k].name == need ==> reached[k]
    ensures grew ==> Unmarked(reached[..]) < Unmarked(old(reached[..]))
    ensures !grew ==> reached[..] == old(reached[..])
  {
    grew := false;
    var k := 0;
    while k < |graph|
      invariant 0 <= k <= |graph| && Earned(roots, graph, reached[..])
      invariant forall m :: 0 <= m < |graph| && old(reached[m]) ==> reached[m]
      invariant forall m :: 0 <= m < k && graph[m].name == need ==> reached[m]
      invariant grew ==> Unmarked(reached[..]) < Unmarked(old(reached[..]))
      invariant !grew ==> reached[..] == old(reached[..])
    {
      if !reached[k] && graph[k].name == need {
        assert reached[..][i];
        NeedReached(roots, graph, i, k);
        MarkOne(reached[..], k);
        ghost var marks := reached[..];
        reached[k] := true;
        assert reached[..] == marks[k := true];
        grew := true;
      }
      k := k + 1;
    }
  }

  /** One pass over the packages. */
  method MarkNeeds(roots: seq<Name>, graph: seq<Package>, reached: array<bool>) returns (grew: bool)
    requires reached.Length == |graph| && Earned(roots, graph, reached[..])
    modifies reached
    ensures Earned(roots, graph, reached[..])
    ensures forall k :: 0 <= k < |graph| && old(reached[k]) ==> reached[k]
    ensures grew ==> Unmarked(reached[..]) < Unmarked(old(reached[..]))
    ensures !grew ==> reached[..] == old(reached[..]) && Closed(graph, reached[..])
  {
    grew := false;
    var i := 0;
    while i < |graph|
      invariant 0 <= i <= |graph| && Earned(roots, graph, reached[..])
      invariant forall k :: 0 <= k < |graph| && old(reached[k]) ==> reached[k]
      invariant grew ==> Unmarked(reached[..]) < Unmarked(old(reached[..]))
      invariant !grew ==> reached[..] == old(reached[..])
      invariant !grew ==> forall k :: 0 <= k < i ==> ClosedAt(graph, reached[..], k)
    {
      var more := MarkNeedsOf(roots, graph, reached, i);
      grew := grew || more;
      i := i + 1;
    }
  }

  method MarkNeedsOf(roots: seq<Name>, graph: seq<Package>, reached: array<bool>, i: nat) returns (grew: bool)
    requires reached.Length == |graph| && i < |graph| && Earned(roots, graph, reached[..])
    modifies reached
    ensures Earned(roots, graph, reached[..])
    ensures forall k :: 0 <= k < |graph| && old(reached[k]) ==> reached[k]
    ensures grew ==> Unmarked(reached[..]) < Unmarked(old(reached[..]))
    ensures !grew ==> reached[..] == old(reached[..]) && ClosedAt(graph, reached[..], i)
  {
    grew := false;
    var needs := graph[i].needs;
    var j := 0;
    while reached[i] && j < |needs|
      invariant 0 <= j <= |needs| && Earned(roots, graph, reached[..])
      invariant forall k :: 0 <= k < |graph| && old(reached[k]) ==> reached[k]
      invariant grew ==> Unmarked(reached[..]) < Unmarked(old(reached[..]))
      invariant !grew ==> reached[..] == old(reached[..])
      invariant forall k :: 0 <= k < |graph| && graph[k].name in needs[..j] ==> reached[k]
    {
      var more := MarkNeed(roots, graph, reached, i, needs[j]);
      grew := grew || more;
      assert needs[..j + 1] == needs[..j] + [needs[j]];
      j := j + 1;
    }
    if reached[i] { assert needs[..j] == needs; }
  }

  /** Pass after pass, until one marks nothing. */
  method Saturate(roots: seq<Name>, graph: seq<Package>) returns (marks: seq<bool>)
    ensures Earned(roots, graph, marks) && Closed(graph, marks)
    ensures forall i :: 0 <= i < |graph| && graph[i].name in roots ==> marks[i]
  {
    marks := MarkRoots(roots, graph);
    var reached := new bool[|graph|](i requires 0 <= i < |marks| => marks[i]);
    assert reached[..] == marks;
    var grew := true;
    while grew
      invariant Earned(roots, graph, reached[..])
      invariant forall i :: 0 <= i < |graph| && graph[i].name in roots ==> reached[i]
      invariant !grew ==> Closed(graph, reached[..])
      decreases Unmarked(reached[..]), grew
    {
      grew := MarkNeeds(roots, graph, reached);
    }
    marks := reached[..];
  }

  lemma MarkedIsReached(roots: seq<Name>, graph: seq<Package>, marks: seq<bool>)
    requires Earned(roots, graph, marks) && Closed(graph, marks)
    requires forall i :: 0 <= i < |graph| && graph[i].name in roots ==> marks[i]
    ensures forall i :: 0 <= i < |graph| ==> (marks[i] <==> Reached(roots, graph, i))
  {
    forall i | 0 <= i < |graph| && Reached(roots, graph, i) ensures marks[i] {
      var p :| Path(roots, graph, p) && p[|p| - 1] == i;
      ClosedMarks(roots, graph, marks, p);
    }
  }

  /** True exactly when every package of the graph is reached from the
      dependencies of the manifest along what each package needs, cycles and
      names that stand for nothing included. */
  method LockReached(roots: seq<Name>, graph: seq<Package>) returns (all: bool)
    ensures all <==> forall i :: 0 <= i < |graph| ==> Reached(roots, graph, i)
  {
    var marks := Saturate(roots, graph);
    MarkedIsReached(roots, graph, marks);
    all := true;
    var i := 0;
    while i < |graph|
      invariant 0 <= i <= |graph| && (all <==> forall k :: 0 <= k < i ==> marks[k])
    {
      all := all && marks[i];
      i := i + 1;
    }
  }
}
