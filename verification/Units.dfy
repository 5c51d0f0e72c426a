/** The order of the modules of a project: `unit_order` and
    `unit_report_cycle` of units.c. */
module Units {
  import opened Marks

  /** A module and the module paths it imports. */
  datatype Unit = Unit(path: string, imports: seq<string>)

  /** Unit `i` imports the module of unit `k`, another one. */
  predicate Imports(units: seq<Unit>, i: nat, k: nat) {
    i < |units| && k < |units| && i != k && units[k].path in units[i].imports
  }

  /** Each imports the next, and the last the first. */
  predicate Cycle(units: seq<Unit>, c: seq<nat>) {
    |c| > 0 && forall j :: 0 <= j < |c| ==> Imports(units, c[j], c[if j + 1 < |c| then j + 1 else 0])
  }

  ghost predicate Acyclic(units: seq<Unit>) {
    forall c :: !Cycle(units, c)
  }

  predicate Permutation(order: seq<nat>, n: nat) {
    && |order| == n && (forall k :: 0 <= k < n ==> order[k] < n)
    && forall j, k :: 0 <= j < k < n ==> order[j] != order[k]
  }

  /** Every imported unit stands before its importer. */
  predicate ImportsFirst(units: seq<Unit>, order: seq<nat>) {
    forall j, k :: 0 <= j < |order| && 0 <= k < |order| && Imports(units, order[k], order[j]) ==> j < k
  }

  /** Unit `i` imports a unit that is not placed. */
  predicate Waits(units: seq<Unit>, done: seq<bool>, i: nat)
    requires |done| == |units|
  {
    exists k :: 0 <= k < |units| && !done[k] && Imports(units, i, k)
  }

  method UnitWaiting(units: seq<Unit>, done: array<bool>, skip: nat, path: string) returns (at: nat)
    requires done.Length == |units|
    ensures at <= |units|
    ensures at < |units| ==> !done[at] && at != skip && units[at].path == path
    ensures at == |units| ==> forall k :: 0 <= k < |units| && !done[k] && k != skip ==> units[k].path != path
  {
    at := 0;
    while at < |units|
      invariant 0 <= at <= |units|
      invariant forall k :: 0 <= k < at && !done[k] && k != skip ==> units[k].path != path
    {
      if !done[at] && at != skip && units[at].path == path { return; }
      at := at + 1;
    }
  }

  /** The first unit not placed that unit `i` imports, or the count. */
  method WaitingFor(units: seq<Unit>, done: array<bool>, i: nat) returns (next: nat)
    requires done.Length == |units| && i < |units|
    ensures next <= |units|
    ensures next < |units| ==> !done[next] && Imports(units, i, next)
    ensures next == |units| <==> !Waits(units, done[..], i)
  {
    next := |units|;
    var imports, j := units[i].imports, 0;
    while next == |units| && j < |imports|
      invariant 0 <= j <= |imports| && next <= |units|
      invariant next < |units| ==> !done[next] && Imports(units, i, next)
      invariant next == |units| ==>
                  forall k :: 0 <= k < |units| && !done[k] && k != i ==> units[k].path !in imports[..j]
    {
      next := UnitWaiting(units, done, i, imports[j]);
      assert imports[..j + 1] == imports[..j] + [imports[j]];
      j := j + 1;
    }
    if next == |units| { assert imports[..j] == imports; }
  }

  // ---- The cycle of a run that cannot be ordered ----

  /** The units stepped on so far, each importing the next, and where each was
      first met. */
  ghost predicate Trail(units: seq<Unit>, done: seq<bool>, step: seq<nat>, seen: seq<nat>) {
    && |done| == |seen| == |units| >= |step|
    && (forall j :: 0 <= j < |step| ==> step[j] < |units| && !done[step[j]] && seen[step[j]] == j)
    && (forall j :: 0 <= j < |step| - 1 ==> Imports(units, step[j], step[j + 1]))
    && (forall i :: 0 <= i < |seen| && seen[i] != |units| ==> seen[i] < |step| && step[seen[i]] == i)
  }

  /** A unit not met before lengthens the trail, which fits the units. */
  lemma TrailMore(units: seq<Unit>, done: seq<bool>, step: seq<nat>, seen: seq<nat>, current: nat)
    requires Trail(units, done, step, seen) && current < |units| && !done[current] && seen[current] == |units|
    requires step != [] ==> Imports(units, step[|step| - 1], current)
    ensures |step| < |units|
    ensures Trail(units, done, step + [current], seen[current := |step|])
  {
    var more := step + [current];
    var items := set j | 0 <= j < |more| :: more[j];
    Distinct(more, items);
    SubsetOfRange(items, |units|);
  }

  lemma {:induction false} Distinct(s: seq<nat>, items: set<nat>)
    requires items == (set j | 0 <= j < |s| :: s[j])
    requires forall j, k :: 0 <= j < k < |s| ==> s[j] != s[k]
    ensures |items| == |s|
  {
    if s != [] {
      var front, last := s[..|s| - 1], s[|s| - 1];
      var fewer := set j | 0 <= j < |front| :: front[j];
      Distinct(front, fewer);
      assert last !in fewer;
      forall x | x in items ensures x in fewer + {last} {
        var j :| 0 <= j < |s| && s[j] == x;
        if j < |front| { assert front[j] == x; }
      }
      forall x | x in fewer ensures x in items {
        var j :| 0 <= j < |front| && front[j] == x;
        assert s[j] == x;
      }
      assert s[|s| - 1] in items;
      assert items == fewer + {last};
    }
  }

  lemma {:induction false} SubsetOfRange(items: set<nat>, n: nat)
    requires forall x :: x in items ==> x < n
    ensures |items| <= n
  {
    if n == 0 {
      assert items == {};
    } else {
      SubsetOfRange(items - {n - 1}, n - 1);
    }
  }

  method ReportCycle(units: seq<Unit>, done: array<bool>, start: nat) returns (cycle: seq<nat>)
    requires done.Length == |units| && start < |units| && !done[start]
    requires forall i :: 0 <= i < |units| && !done[i] ==> Waits(units, done[..], i)
    ensures Cycle(units, cycle) && forall j :: 0 <= j < |cycle| ==> cycle[j] < |units| && !done[cycle[j]]
  {
    hide Waits, Cycle;
    var count := |units|;
    var step: seq<nat> := [];
    var seen := new nat[count](_ => count);
    var current: nat := start;
    while seen[current] == count
      invariant current < count && !done[current] && Trail(units, done[..], step, seen[..])
      invariant step != [] ==> Imports(units, step[|step| - 1], current)
      decreases count - |step|
    {
      TrailMore(units, done[..], step, seen[..], current);
      ghost var before, at: nat := seen[..], |step|;
      seen[current] := |step|;
      step := step + [current];
      assert seen[..] == before[current := at];
      var next := WaitingFor(units, done, current);
      if next == count { break; }
      current := next;
    }
    cycle := step[seen[current]..];
    Closes(units, step, seen[current]);
  }

  /** A trail whose last unit imports one of its own closes a cycle there. */
  lemma Closes(units: seq<Unit>, step: seq<nat>, from: nat)
    requires from < |step| && Imports(units, step[|step| - 1], step[from])
    requires forall j :: 0 <= j < |step| - 1 ==> Imports(units, step[j], step[j + 1])
    ensures Cycle(units, step[from..])
  {
    var cycle := step[from..];
    forall j | 0 <= j < |cycle|
      ensures Imports(units, cycle[j], cycle[if j + 1 < |cycle| then j + 1 else 0])
    {
      if j + 1 < |cycle| { assert Imports(units, step[from + j], step[from + j + 1]); }
    }
  }

  method ReportFirst(units: seq<Unit>, done: array<bool>) returns (cycle: seq<nat>)
    requires done.Length == |units| && exists i :: 0 <= i < |units| && !done[i]
    requires forall i :: 0 <= i < |units| && !done[i] ==> Waits(units, done[..], i)
    ensures Cycle(units, cycle)
  {
    var i := 0;
    while done[i]
      invariant 0 <= i < |units| && forall k :: 0 <= k < i ==> done[k]
      decreases |units| - i
    {
      i := i + 1;
    }
    cycle := ReportCycle(units, done, i);
  }

  // ---- The order ----

  /** The units placed so far: `done` marks them, and each stands after every
      other unit of the run it imports. */
  ghost predicate Placing(units: seq<Unit>, done: seq<bool>, order: seq<nat>) {
    && |done| == |units|
    && (forall k :: 0 <= k < |order| ==> order[k] < |units| && done[order[k]])
    && (forall j, k :: 0 <= j < k < |order| ==> order[j] != order[k])
    && (forall i :: 0 <= i < |done| && done[i] ==> i in order)
    && |order| + Unmarked(done) == |units|
    && (forall k, i :: 0 <= k < |order| && Imports(units, order[k], i) ==> i in order[..k])
  }

  lemma PlaceMore(units: seq<Unit>, done: seq<bool>, order: seq<nat>, i: nat)
    requires Placing(units, done, order) && i < |units| && !done[i] && !Waits(units, done, i)
    ensures Placing(units, done[i := true], order + [i])
  {
    var more := order + [i];
    MarkOne(done, i);
    forall k: nat, x: nat | 0 <= k < |more| && Imports(units, more[k], x) ensures x in more[..k] {
      if k < |order| {
        assert Imports(units, order[k], x) && more[..k] == order[..k];
      } else {
        assert done[x] && more[..k] == order;
      }
    }
  }

  lemma PlacingOrders(units: seq<Unit>, order: seq<nat>)
    requires forall j, k :: 0 <= j < k < |order| ==> order[j] != order[k]
    requires forall k, i :: 0 <= k < |order| && Imports(units, order[k], i) ==> i in order[..k]
    ensures ImportsFirst(units, order)
  {
    forall j, k | 0 <= j < |order| && 0 <= k < |order| && Imports(units, order[k], order[j]) ensures j < k {
      var m :| 0 <= m < k && order[m] == order[j];
    }
  }

  /** An order that puts imports first leaves room for no cycle. */
  lemma OrderedIsAcyclic(units: seq<Unit>, order: seq<nat>)
    requires Permutation(order, |units|) && ImportsFirst(units, order)
    ensures Acyclic(units)
  {
    forall c ensures !Cycle(units, c) {
      if |c| == 1 {
        assert !Imports(units, c[0], c[if 0 + 1 < |c| then 0 + 1 else 0]);
      } else if Cycle(units, c) {
        var at := Places(units, order, c);
        Descends(at, |c| - 1);
        assert false;
      }
    }
  }

  lemma Places(units: seq<Unit>, order: seq<nat>, c: seq<nat>) returns (at: seq<nat>)
    requires Permutation(order, |units|) && ImportsFirst(units, order) && |c| > 1 && Cycle(units, c)
    ensures |at| == |c| && forall j :: 0 <= j < |c| ==> at[j] < |order| && order[at[j]] == c[j]
    ensures forall j :: 0 <= j < |c| - 1 ==> at[j + 1] < at[j]
    ensures at[0] < at[|c| - 1]
  {
    forall j | 0 <= j < |c| ensures c[j] in order {
      assert Imports(units, c[j], c[if j + 1 < |c| then j + 1 else 0]);
      PermutationHolds(order, |units|, c[j]);
    }
    at := seq(|c|, j requires 0 <= j < |c| => IndexOf(order, c[j]));
    forall j | 0 <= j < |c| - 1 ensures at[j + 1] < at[j] {
      assert Imports(units, c[j], c[j + 1]);
      assert order[at[j]] == c[j] && order[at[j + 1]] == c[j + 1];
    }
    var last := |c| - 1;
    assert Imports(units, c[last], c[if last + 1 < |c| then last + 1 else 0]);
    assert order[at[last]] == c[last] && order[at[0]] == c[0];
  }

  function IndexOf(order: seq<nat>, x: nat): (at: nat)
    requires x in order
    ensures at < |order| && order[at] == x
  {
    if order[0] == x then 0 else IndexOf(order[1..], x) + 1
  }

  lemma {:induction false} Descends(at: seq<nat>, k: nat)
    requires k < |at| && forall j :: 0 <= j < |at| - 1 ==> at[j + 1] < at[j]
    ensures at[k] + k <= at[0]
    decreases k
  {
    if k > 0 { Descends(at, k - 1); assert at[k - 1 + 1] < at[k - 1]; }
  }

  /** A permutation holds every index. */
  lemma PermutationHolds(order: seq<nat>, n: nat, x: nat)
    requires Permutation(order, n) && x < n
    ensures x in order
  {
    if x !in order {
      var more := order + [x];
      var items := set j | 0 <= j < |more| :: more[j];
      Distinct(more, items);
      SubsetOfRange(items, n);
    }
  }

  lemma AllPlaced(units: seq<Unit>, done: seq<bool>, order: seq<nat>)
    requires Placing(units, done, order)
    ensures |order| <= |units|
    ensures |order| == |units| <==> forall i :: 0 <= i < |units| ==> done[i]
  {
    AllMarked(done);
  }

  /** One pass over the units, placing each whose imports are placed. */
  method PlaceReady(units: seq<Unit>, done: array<bool>, order: array<nat>, from: nat)
      returns (grew: bool, placed: nat)
    requires order.Length == done.Length == |units| && from <= |units| && Placing(units, done[..], order[..from])
    modifies done, order
    ensures from <= placed <= |units| && Placing(units, done[..], order[..placed])
    ensures grew ==> from < placed
    ensures !grew ==> from == placed && forall i :: 0 <= i < |units| && !done[i] ==> Waits(units, done[..], i)
  {
    hide Waits, Permutation;
    grew, placed := false, from;
    ghost var start := done[..];
    var i := 0;
    while i < |units|
      invariant 0 <= i <= |units| && from <= placed <= |units| && Placing(units, done[..], order[..placed])
      invariant grew ==> from < placed
      invariant !grew ==> from == placed && forall k :: 0 <= k < i && !done[k] ==> Waits(units, done[..], k)
    {
      if !done[i] {
        var next := WaitingFor(units, done, i);
        if next == |units| {
          PlaceMore(units, done[..], order[..placed], i);
          AllPlaced(units, done[..][i := true], order[..placed] + [i]);
          ghost var more, marks := order[..placed] + [i], done[..][i := true];
          order[placed] := i;
          done[i] := true;
          placed := placed + 1;
          grew := true;
          assert order[..placed] == more && done[..] == marks;
        }
      }
      i := i + 1;
    }
  }

  /** The order so far holds the units marked and those before `i`, each once,
      and has room for the rest. */
  ghost predicate Filling(marks: seq<bool>, order: seq<nat>, i: nat) {
    && i <= |marks| && |order| + Unmarked(marks[i..]) == |marks|
    && (forall k :: 0 <= k < |order| ==> order[k] < |marks| && (marks[order[k]] || order[k] < i))
    && forall j, k :: 0 <= j < k < |order| ==> order[j] != order[k]
  }

  lemma FillSkip(marks: seq<bool>, order: seq<nat>, i: nat)
    requires Filling(marks, order, i) && i < |marks| && marks[i]
    ensures Filling(marks, order, i + 1)
  {
    assert marks[i..][1..] == marks[i + 1..];
  }

  lemma FillMore(marks: seq<bool>, order: seq<nat>, i: nat)
    requires Filling(marks, order, i) && i < |marks| && !marks[i]
    ensures |order| < |marks| && Filling(marks, order + [i], i + 1)
  {
    assert marks[i..][1..] == marks[i + 1..];
  }

  /** The units no pass could place stand last, in their own order. */
  method PlaceRest(units: seq<Unit>, done: array<bool>, order: array<nat>, from: nat)
    requires order.Length == done.Length == |units| && from <= |units| && Placing(units, done[..], order[..from])
    modifies order
    ensures Permutation(order[..], |units|) && order[..from] == old(order[..from])
  {
    hide Unmarked, Waits, Imports;
    var placed := from;
    var i := 0;
    ghost var marks := done[..];
    assert marks[0..] == marks;
    while i < |units|
      invariant 0 <= i <= |units| && from <= placed <= |units| && done[..] == marks
      invariant Filling(marks, order[..placed], i) && order[..from] == old(order[..from])
    {
      if !done[i] {
        ghost var more := order[..placed] + [i];
        FillMore(marks, order[..placed], i);
        order[placed] := i;
        placed := placed + 1;
        assert order[..placed] == more;
      } else {
        FillSkip(marks, order[..placed], i);
      }
      i := i + 1;
    }
    FilledAll(marks, order[..placed], order[..]);
  }

  lemma FilledAll(marks: seq<bool>, order: seq<nat>, all: seq<nat>)
    requires Filling(marks, order, |marks|) && order <= all && |all| == |marks|
    ensures Permutation(all, |marks|)
  {
    assert marks[|marks|..] == [];
    assert order == all;
  }

  lemma PlacedAll(units: seq<Unit>, done: seq<bool>, order: seq<nat>)
    requires Placing(units, done, order) && |order| == |units|
    ensures Permutation(order, |units|) && ImportsFirst(units, order) && Acyclic(units)
  {
    PlacingOrders(units, order);
    OrderedIsAcyclic(units, order);
  }

  /** Pass after pass, until one places nothing. */
  method PlaceAll(units: seq<Unit>, done: array<bool>, order: array<nat>) returns (placed: nat)
    requires order.Length == done.Length == |units| && forall i :: 0 <= i < |units| ==> !done[i]
    modifies done, order
    ensures placed <= |units| && Placing(units, done[..], order[..placed])
    ensures placed < |units| ==> forall i :: 0 <= i < |units| && !done[i] ==> Waits(units, done[..], i)
  {
    placed := 0;
    var grew := true;
    NoneMarked(done[..]);
    assert order[..0] == [];
    while grew && placed < |units|
      invariant 0 <= placed <= |units| && Placing(units, done[..], order[..placed])
      invariant !grew ==> forall i :: 0 <= i < |units| && !done[i] ==> Waits(units, done[..], i)
      decreases |units| - placed, grew
    {
      grew, placed := PlaceReady(units, done, order, placed);
    }
  }

  /** The order of the units, and whether the imports allow one; where they do
      not, a cycle of units that were not placed. */
  method UnitOrder(units: seq<Unit>, order: array<nat>) returns (ordered: bool, cycle: seq<nat>)
    requires order.Length == |units|
    modifies order
    ensures Permutation(order[..], |units|)
    ensures ordered <==> Acyclic(units)
    ensures ordered ==> ImportsFirst(units, order[..])
    ensures !ordered ==> Cycle(units, cycle)
  {
    var done := new bool[|units|](_ => false);
    var placed := PlaceAll(units, done, order);
    ordered := placed == |units|;
    cycle := [];
    AllPlaced(units, done[..], order[..placed]);
    ghost var placing := order[..placed];
    if ordered {
      PlacedAll(units, done[..], placing);
    } else {
      cycle := ReportFirst(units, done);
    }
    PlaceRest(units, done, order, placed);
    assert ordered ==> order[..] == placing;
  }
}
