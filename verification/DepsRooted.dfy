/** When the picks of a walk are all reached from the manifest: the step that
    keeps them so, and the indexes for which every settled walk does. */
module DepsRooted {
  import opened Options
  import opened Deps
  import opened DepsTheorems
  import opened Lock

  // ---- One visit ----

  lemma {:induction false} DropFromOthers(reqs: seq<Requirement>, gone: set<Name>)
    requires forall q :: q in reqs ==> q.from !in gone
    ensures DropFrom(reqs, gone) == reqs
  {
    if reqs != [] {
      var front, last := reqs[..|reqs| - 1], reqs[|reqs| - 1];
      assert reqs == front + [last];
      DropFromOthers(front, gone);
    }
  }

  lemma FirstLink(s: State, p: seq<Name>)
    requires Chain(s, p) && |p| > 1
    ensures Link(s, p[0], p[1])
  {
    assert Link(s, p[0], p[0 + 1]);
  }

  /** A name without a pick has nothing to take back. */
  lemma UnpickedAbsent(w: World, s: State, name: Name)
    requires Sound(w, s) && name !in Names(s.graph) && name != MANIFEST
    ensures Taken(s, name) == {name} && Unpicked(s, name) == s
  {
    forall x | Reaches(s, name, x) ensures x == name {
      var p :| Chain(s, p) && p[0] == name && p[|p| - 1] == x;
      if |p| > 1 { FirstLink(s, p); }
    }
    ReachesItself(s, name);
    DropOthers(s.graph, {name});
    DropFromOthers(s.reqs, {name});
  }

  /** A visit that changes something makes the pick anew, a first one too. */
  lemma VisitRemakes(w: World, s: State, name: Name)
    requires Sound(w, s) && name != MANIFEST && Visit(w, s, name).ok && Visit(w, s, name).changed
    ensures Remade(s, name, Visit(w, s, name).s)
  {
    var source := SourceOf(s.reqs, name).value;
    if name in Names(s.graph) {
      RepickRemakes(w, s, name, source);
    } else {
      UnpickedAbsent(w, s, name);
      PickGains(w, s.reqs, name, source.repo, source.path);
      var pick := Pick(w, s.reqs, name, source.repo, source.path).1;
      assert Repick(w, s, name, source).0.graph == s.graph + [pick.value];
    }
  }

  /** A visit that makes a pick, be it the first of its name, leaves every
      pick reached from the manifest exactly when something the package does
      not itself reach requires it. */
  lemma VisitRootedIff(w: World, s: State, name: Name)
    requires Sound(w, s) && Rooted(s) && NamedReqs(s.reqs) && name != MANIFEST
    requires Visit(w, s, name).ok && Visit(w, s, name).changed
    ensures Rooted(Visit(w, s, name).s) <==>
            exists q :: q in s.reqs && q.name == name && q.from !in Taken(s, name)
  {
    VisitRemakes(w, s, name);
    RootedIffRequiredElsewhere(s, name, Visit(w, s, name).s);
  }

  // ---- What a pick may require ----

  predicate Among(deps: seq<Dep>, other: Name) {
    exists d :: d in deps && d.valid && d.name == other
  }

  predicate Lists(i: Index, e: Entry, other: Name) {
    i.Held? && e in i.entries && Among(e.deps, other)
  }

  /** Some version of `name`, in any repository or at any path, depends on
      `other`. */
  ghost predicate Depends(w: World, name: Name, other: Name) {
    || (exists url, e :: Lists(w.index(url, name), e, other))
    || (exists path :: w.project(path, name).Some? && Among(w.project(path, name).value.deps, other))
  }

  /** What is new in `more` is a dependency of some version of `name`. */
  ghost predicate OnlyDepends(w: World, reqs: seq<Requirement>, more: seq<Requirement>, name: Name) {
    forall q :: q in more ==> q in reqs || (q.from == name && Depends(w, name, q.name))
  }

  lemma {:induction false} RequireAllAmong(reqs: seq<Requirement>, deps: seq<Dep>, from: Name)
    ensures forall q :: q in RequireAll(reqs, deps, from).0 ==> q in reqs || (q.from == from && Among(deps, q.name))
    decreases |deps|
  {
    if deps != [] && deps[0].valid {
      var d := deps[0];
      RequireAllAmong(With(reqs, Requirement(d.name, d.constraint, d.repo, d.path, from)), deps[1..], from);
      forall other | Among(deps[1..], other) ensures Among(deps, other) {
        var o :| o in deps[1..] && o.valid && o.name == other;
        assert o in deps;
      }
    }
  }

  lemma FromIndexDepends(w: World, reqs: seq<Requirement>, name: Name, url: string)
    ensures OnlyDepends(w, reqs, FromIndex(w, reqs, name, url).reqs, name)
  {
    if w.index(url, name).Held? {
      var entries := w.index(url, name).entries;
      var best := Best(reqs, name, entries);
      if best.Some? {
        var e := entries[best.value];
        RequireAllAmong(reqs, e.deps, name);
        forall other | Among(e.deps, other) ensures Depends(w, name, other) {
          assert Lists(w.index(url, name), e, other);
        }
      }
    }
  }

  lemma {:induction false} FromAnyDepends(w: World, reqs: seq<Requirement>, name: Name, i: nat,
                                          winner: Option<(string, string)>)
    requires i <= |w.repositories|
    ensures OnlyDepends(w, reqs, FromAny(w, reqs, name, i, winner).0, name)
    decreases |w.repositories| - i
  {
    if i < |w.repositories| {
      var url := w.repositories[i];
      FromIndexDepends(w, reqs, name, url);
      var a := FromIndex(w, reqs, name, url);
      FromAnyDepends(w, a.reqs, name, i + 1, if a.version.Some? then Some((a.version.value, url)) else winner);
    }
  }

  lemma PickDepends(w: World, reqs: seq<Requirement>, name: Name, repo: string, path: string)
    ensures OnlyDepends(w, reqs, Pick(w, reqs, name, repo, path).0, name)
  {
    if path != "" {
      var project := w.project(path, name);
      if project.Some? { RequireAllAmong(reqs, project.value.deps, name); }
    } else if repo != "" {
      FromIndexDepends(w, reqs, name, repo);
    } else {
      FromAnyDepends(w, reqs, name, 0, None);
    }
  }

  /** A visit keeps only requirements that stood, or that a version of the
      package makes. */
  lemma VisitDepends(w: World, s: State, name: Name)
    ensures OnlyDepends(w, s.reqs, Visit(w, s, name).s.reqs, name)
  {
    if !Answered(s, name) && SourceOf(s.reqs, name).Some? {
      var source, cleared := SourceOf(s.reqs, name).value, Cleared(s, name);
      PickDepends(w, cleared.reqs, name, source.repo, source.path);
      if name in Names(s.graph) {
        UnpickedIs(s, name);
        DropFromKeeps(s.reqs, Taken(s, name));
      }
    }
  }

  // ---- Indexes without cycles ----

  /** The rank falls along every dependency, so no cycle leads through one. */
  ghost predicate Falls(w: World, rank: Name -> nat) {
    forall name, other :: Depends(w, name, other) ==> rank(other) < rank(name)
  }

  ghost predicate ReqsFall(rank: Name -> nat, reqs: seq<Requirement>) {
    forall q :: q in reqs && q.from != MANIFEST ==> rank(q.name) < rank(q.from)
  }

  /** What a package reaches ranks no higher than it. */
  lemma {:induction false} PathFalls(s: State, rank: Name -> nat, p: seq<Name>)
    requires ReqsFall(rank, s.reqs) && NamedReqs(s.reqs) && Chain(s, p) && p[0] != MANIFEST
    ensures rank(p[|p| - 1]) <= rank(p[0])
    decreases |p|
  {
    if |p| > 1 {
      assert Link(s, p[0], p[0 + 1]);
      var rest := p[1..];
      forall i | 0 <= i < |rest| - 1 ensures Link(s, rest[i], rest[i + 1]) {
        assert Link(s, p[i + 1], p[i + 1 + 1]);
      }
      PathFalls(s, rank, rest);
    }
  }

  /** What a walk keeps where the index has no cycle. */
  ghost predicate Kept(w: World, rank: Name -> nat, s: State) {
    Sound(w, s) && Rooted(s) && NamedReqs(s.reqs) && ReqsFall(rank, s.reqs)
  }

  lemma VisitKeeps(w: World, rank: Name -> nat, s: State, name: Name)
    requires NamedWorld(w) && Falls(w, rank) && Kept(w, rank, s) && name != MANIFEST && Visit(w, s, name).ok
    ensures Kept(w, rank, Visit(w, s, name).s)
  {
    VisitSound(w, s, name);
    VisitNamed(w, s, name);
    VisitDepends(w, s, name);
    if Visit(w, s, name).changed {
      var q := SourceOf(s.reqs, name).value;
      NothingReachesManifest(s, name);
      forall p | Chain(s, p) && p[0] == name ensures p[|p| - 1] != q.from {
        PathFalls(s, rank, p);
      }
      assert q in s.reqs && q.name == name && q.from !in Taken(s, name);
      VisitRootedIff(w, s, name);
    }
  }

  lemma {:induction false} RoundKeeps(w: World, rank: Name -> nat, s: State, names: seq<Name>)
    requires NamedWorld(w) && Falls(w, rank) && Kept(w, rank, s) && MANIFEST !in names
    ensures VisitAll(w, s, names).ok ==> Kept(w, rank, VisitAll(w, s, names).s)
    decreases |names|
  {
    if names != [] {
      var one := Visit(w, s, names[0]);
      if one.ok {
        VisitKeeps(w, rank, s, names[0]);
        RoundKeeps(w, rank, one.s, names[1..]);
      }
    }
  }

  lemma OneRoundKeeps(w: World, rank: Name -> nat, s: State, r: Walk)
    requires NamedWorld(w) && Falls(w, rank) && Kept(w, rank, s) && r == Round(w, s) && r.ok
    ensures Kept(w, rank, r.s)
  {
    RoundKeeps(w, rank, s, Required(s.reqs));
  }

  lemma RoundsKeep(w: World, rank: Name -> nat, s: State, n: nat)
    requires NamedWorld(w) && Falls(w, rank) && Kept(w, rank, s)
    ensures Rounds(w, s, n).Some? ==> Kept(w, rank, Rounds(w, s, n).value)
  {
    forall t | Kept(w, rank, t) && Round(w, t).ok ensures Kept(w, rank, Round(w, t).s) {
      OneRoundKeeps(w, rank, t, Round(w, t));
    }
    RoundsInvariant(w, s, n, t => Kept(w, rank, t));
  }

  /** Where no version of a package depends on itself by way of others, every
      pick of a settled walk is reached from the manifest. */
  lemma AcyclicIsRooted(w: World, rank: Name -> nat, manifest: seq<Dep>, s: State)
    requires NamedWorld(w) && Falls(w, rank) && NamedDeps(manifest)
    requires Rounds(w, Start(manifest), ROUNDS) == Some(s)
    ensures Rooted(s)
  {
    RequireAllNamed([], manifest, MANIFEST);
    RequireAllGains([], manifest, MANIFEST);
    assert Kept(w, rank, Start(manifest));
    RoundsKeep(w, rank, Start(manifest), ROUNDS);
  }

  // ---- The lock file of a settled walk ----

  function DepNames(deps: seq<Dep>): (names: seq<Name>)
    ensures |names| == |deps| && forall i :: 0 <= i < |deps| ==> names[i] == deps[i].name
  {
    seq(|deps|, i requires 0 <= i < |deps| => deps[i].name)
  }

  /** The manifest requires the packages of `roots` and no others, and is no
      package itself. */
  ghost predicate Grounded(s: State, roots: seq<Name>) {
    && NamedReqs(s.reqs) && MANIFEST !in Names(s.graph)
    && forall q :: q in s.reqs && q.from == MANIFEST ==> q.name in roots
  }

  lemma VisitGrounded(w: World, s: State, name: Name, roots: seq<Name>)
    requires NamedWorld(w) && Sound(w, s) && Grounded(s, roots) && name != MANIFEST && Visit(w, s, name).ok
    ensures Grounded(Visit(w, s, name).s, roots)
  {
    VisitNamed(w, s, name);
    VisitDepends(w, s, name);
    if Visit(w, s, name).changed {
      VisitRemakes(w, s, name);
      RemadeKeeps(s, name, Visit(w, s, name).s);
    }
  }

  lemma {:induction false} RoundGrounded(w: World, s: State, names: seq<Name>, roots: seq<Name>)
    requires NamedWorld(w) && Sound(w, s) && Grounded(s, roots) && MANIFEST !in names
    ensures VisitAll(w, s, names).ok ==> Grounded(VisitAll(w, s, names).s, roots)
    decreases |names|
  {
    if names != [] {
      var one := Visit(w, s, names[0]);
      if one.ok {
        VisitSound(w, s, names[0]);
        VisitGrounded(w, s, names[0], roots);
        RoundGrounded(w, one.s, names[1..], roots);
      }
    }
  }

  lemma OneRoundGrounded(w: World, s: State, roots: seq<Name>, r: Walk)
    requires NamedWorld(w) && Sound(w, s) && Grounded(s, roots) && r == Round(w, s) && r.ok
    ensures Sound(w, r.s) && Grounded(r.s, roots)
  {
    OneRoundSound(w, s);
    RoundGrounded(w, s, Required(s.reqs), roots);
  }

  lemma RoundsGrounded(w: World, s: State, n: nat, roots: seq<Name>)
    requires NamedWorld(w) && Sound(w, s) && Grounded(s, roots)
    ensures Rounds(w, s, n).Some? ==> Grounded(Rounds(w, s, n).value, roots)
  {
    forall t | Sound(w, t) && Grounded(t, roots) && Round(w, t).ok
      ensures Sound(w, Round(w, t).s) && Grounded(Round(w, t).s, roots)
    {
      OneRoundGrounded(w, t, roots, Round(w, t));
    }
    RoundsInvariant(w, s, n, t => Sound(w, t) && Grounded(t, roots));
  }

  /** Names the manifest links to are its dependencies; the others are needed
      by the pick before them. */
  lemma {:induction false} ChainIsPath(s: State, roots: seq<Name>, p: seq<Name>, i: nat)
    requires Grounded(s, roots) && (forall o :: o in s.graph ==> o.needs == [])
    requires Chain(s, p) && |p| > 1 && p[0] == MANIFEST && i < |s.graph| && s.graph[i].name == p[|p| - 1]
    ensures Reached(roots, Recorded(s).graph, i)
    decreases |p|
  {
    var last := |p| - 2;
    assert Link(s, p[last], p[last + 1]);
    if last == 0 {
      RootReached(roots, Recorded(s).graph, i);
    } else {
      var front := p[..|p| - 1];
      forall j | 0 <= j < |front| - 1 ensures Link(s, front[j], front[j + 1]) {
        assert Link(s, p[j], p[j + 1]);
      }
      assert Link(s, p[last - 1], p[last - 1 + 1]);
      var k := PlaceOf(s.graph, p[last]);
      ChainIsPath(s, roots, front, k);
      NeedsAre(s.reqs, p[last]);
      NeedReached(roots, Recorded(s).graph, k, i);
    }
  }

  lemma PlaceOf(graph: seq<Package>, name: Name) returns (k: nat)
    requires name in Names(graph)
    ensures k < |graph| && graph[k].name == name
  {
    var o :| o in graph && o.name == name;
    k :| 0 <= k < |graph| && graph[k] == o;
  }

  lemma {:induction false} PathIsChain(s: State, roots: seq<Name>, p: seq<nat>)
    requires (forall o :: o in s.graph ==> o.needs == []) && Path(roots, Recorded(s).graph, p)
    requires forall n :: n in roots ==> exists q :: q in s.reqs && q.from == MANIFEST && q.name == n
    ensures Reaches(s, MANIFEST, s.graph[p[|p| - 1]].name)
    decreases |p|
  {
    var x := s.graph[p[|p| - 1]].name;
    if |p| == 1 {
      ReachesItself(s, MANIFEST);
      assert Link(s, MANIFEST, x);
      ReachesOn(s, MANIFEST, MANIFEST, x);
    } else {
      assert Path(roots, Recorded(s).graph, p[..|p| - 1]);
      PathIsChain(s, roots, p[..|p| - 1]);
      var y := s.graph[p[|p| - 2]].name;
      NeedsAre(s.reqs, y);
      assert x in Recorded(s).graph[p[|p| - 2]].needs;
      assert Link(s, y, x);
      ReachesOn(s, MANIFEST, y, x);
    }
  }

  /** Every pick of a settled walk is reached from the manifest exactly when
      the check of the lock file finds every package of it reached. */
  lemma RootedIffLockReached(w: World, manifest: seq<Dep>, s: State)
    requires NamedWorld(w) && NamedDeps(manifest) && forall d :: d in manifest ==> d.valid
    requires Rounds(w, Start(manifest), ROUNDS) == Some(s)
    ensures Rooted(s) <==>
            forall i :: 0 <= i < |Recorded(s).graph| ==> Reached(DepNames(manifest), Recorded(s).graph, i)
  {
    var roots := DepNames(manifest);
    SettledIsGrounded(w, manifest, s);
    if Rooted(s) {
      forall i | 0 <= i < |Recorded(s).graph| ensures Reached(roots, Recorded(s).graph, i) {
        RootedIsReached(s, roots, i);
      }
    }
    if forall i :: 0 <= i < |Recorded(s).graph| ==> Reached(roots, Recorded(s).graph, i) {
      forall x | x in Names(s.graph) ensures Reaches(s, MANIFEST, x) {
        var i := PlaceOf(s.graph, x);
        ReachedIsRooted(s, roots, i);
      }
    }
  }

  lemma RootedIsReached(s: State, roots: seq<Name>, i: nat)
    requires Rooted(s) && Grounded(s, roots) && (forall o :: o in s.graph ==> o.needs == []) && i < |s.graph|
    ensures Reached(roots, Recorded(s).graph, i)
  {
    var x := s.graph[i].name;
    assert x in Names(s.graph) by { assert s.graph[i] in s.graph; }
    var p :| Chain(s, p) && p[0] == MANIFEST && p[|p| - 1] == x;
    ChainIsPath(s, roots, p, i);
  }

  lemma ReachedIsRooted(s: State, roots: seq<Name>, i: nat)
    requires (forall o :: o in s.graph ==> o.needs == []) && i < |s.graph| && Reached(roots, Recorded(s).graph, i)
    requires forall n :: n in roots ==> exists q :: q in s.reqs && q.from == MANIFEST && q.name == n
    ensures Reaches(s, MANIFEST, s.graph[i].name)
  {
    var p :| Path(roots, Recorded(s).graph, p) && p[|p| - 1] == i;
    PathIsChain(s, roots, p);
  }

  lemma StartGrounded(w: World, manifest: seq<Dep>, start: State, roots: seq<Name>)
    requires NamedDeps(manifest) && forall d :: d in manifest ==> d.valid
    requires start == Start(manifest) && roots == DepNames(manifest)
    ensures Sound(w, start) && Grounded(start, roots) && DepsStand(start.reqs, manifest, MANIFEST)
  {
    RequireAllNamed([], manifest, MANIFEST);
    RequireAllGains([], manifest, MANIFEST);
    RequireAllAmong([], manifest, MANIFEST);
    AllValid([], manifest, MANIFEST);
    forall other | Among(manifest, other) ensures other in roots {
      var i :| 0 <= i < |manifest| && manifest[i].name == other;
      assert roots[i] == other;
    }
  }

  lemma SettledIsGrounded(w: World, manifest: seq<Dep>, s: State)
    requires NamedWorld(w) && NamedDeps(manifest) && forall d :: d in manifest ==> d.valid
    requires Rounds(w, Start(manifest), ROUNDS) == Some(s)
    ensures Grounded(s, DepNames(manifest)) && forall o :: o in s.graph ==> o.needs == []
    ensures forall n :: n in DepNames(manifest) ==> exists q :: q in s.reqs && q.from == MANIFEST && q.name == n
  {
    var roots, start := DepNames(manifest), Start(manifest);
    StartGrounded(w, manifest, start, roots);
    RoundsGrounded(w, start, ROUNDS, roots);
    RoundsNamed(w, start, ROUNDS);
    ResolutionIsClosed(w, manifest, s);
    forall n | n in roots ensures exists q :: q in s.reqs && q.from == MANIFEST && q.name == n {
      var i :| 0 <= i < |roots| && roots[i] == n;
      var q := StandingOf(start.reqs, manifest, i);
    }
  }

  lemma StandingOf(reqs: seq<Requirement>, manifest: seq<Dep>, i: nat) returns (q: Requirement)
    requires i < |manifest| && DepsStand(reqs, manifest, MANIFEST)
    ensures q in reqs && q.from == MANIFEST && q.name == manifest[i].name
  {
    var d := manifest[i];
    assert d in manifest;
    q :| q in reqs && q.name == d.name && q.constraint == d.constraint && q.from == MANIFEST;
  }

  /** So where no package depends on itself by way of others, the lock file a
      walk writes is one its check takes. */
  lemma AcyclicLockIsReached(w: World, rank: Name -> nat, manifest: seq<Dep>, s: State, i: nat)
    requires NamedWorld(w) && Falls(w, rank) && NamedDeps(manifest) && forall d :: d in manifest ==> d.valid
    requires Rounds(w, Start(manifest), ROUNDS) == Some(s) && i < |Recorded(s).graph|
    ensures Reached(DepNames(manifest), Recorded(s).graph, i)
  {
    AcyclicIsRooted(w, rank, manifest, s);
    RootedIffLockReached(w, manifest, s);
  }
}
