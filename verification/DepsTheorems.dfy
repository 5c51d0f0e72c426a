/** What holds of the picks of the resolver after any number of rounds, and
    what a settled walk is. */
module DepsTheorems {
  import opened Options
  import opened Version
  import opened Deps

  /** The version of the pick stands at its source with these dependencies. */
  ghost predicate Offered(w: World, p: Package, deps: seq<Dep>) {
    if p.path != "" then w.project(p.path, p.name) == Some(Project(p.version, deps))
    else exists e :: Indexed(w, p, e) && e.deps == deps
  }

  ghost predicate Indexed(w: World, p: Package, e: Entry) {
    w.index(p.repo, p.name).Held? && e in w.index(p.repo, p.name).entries && !e.yanked && e.version == p.version
  }

  ghost predicate DepsStand(reqs: seq<Requirement>, deps: seq<Dep>, from: Name) {
    forall d :: d in deps ==> Stands(reqs, d.name, d.constraint, from)
  }

  ghost predicate Backed(w: World, reqs: seq<Requirement>, p: Package) {
    p.needs == [] && exists deps :: Offered(w, p, deps) && DepsStand(reqs, deps, p.name)
  }

  /** Every requirement comes from the manifest or from a picked package, and
      every pick has required all its version depends on. */
  ghost predicate Sound(w: World, s: State) {
    && Unique(s.graph)
    && (forall q :: q in s.reqs ==> q.from == MANIFEST || q.from in Names(s.graph))
    && (forall p :: p in s.graph ==> Backed(w, s.reqs, p))
  }

  // ---- What a pick adds ----

  /** `more` is `reqs` with requirements of `from` behind it. */
  ghost predicate Gains(reqs: seq<Requirement>, more: seq<Requirement>, from: Name) {
    (forall q :: q in reqs ==> q in more) && (forall q :: q in more ==> q in reqs || q.from == from)
  }

  lemma {:induction false} RequireAllGains(reqs: seq<Requirement>, deps: seq<Dep>, from: Name)
    ensures var (more, ok) := RequireAll(reqs, deps, from);
            Gains(reqs, more, from) && (ok ==> DepsStand(more, deps, from))
    decreases |deps|
  {
    if deps != [] && deps[0].valid {
      var d := deps[0];
      var one := With(reqs, Requirement(d.name, d.constraint, d.repo, d.path, from));
      assert Stands(one, d.name, d.constraint, from) by {
        if !Stands(reqs, d.name, d.constraint, from) {
          assert Requirement(d.name, d.constraint, d.repo, d.path, from) in one;
        }
      }
      RequireAllGains(one, deps[1..], from);
      var (more, ok) := RequireAll(one, deps[1..], from);
      StillStands(one, more, d, from);
    }
  }

  lemma StillStands(reqs: seq<Requirement>, more: seq<Requirement>, d: Dep, from: Name)
    requires forall q :: q in reqs ==> q in more
    requires Stands(reqs, d.name, d.constraint, from)
    ensures Stands(more, d.name, d.constraint, from)
  {
  }

  lemma DepsStillStand(reqs: seq<Requirement>, more: seq<Requirement>, deps: seq<Dep>, from: Name)
    requires forall q :: q in reqs ==> q in more
    requires DepsStand(reqs, deps, from)
    ensures DepsStand(more, deps, from)
  {
    forall d | d in deps ensures Stands(more, d.name, d.constraint, from) {
      StillStands(reqs, more, d, from);
    }
  }

  lemma StillBacked(w: World, reqs: seq<Requirement>, more: seq<Requirement>, p: Package)
    requires forall q :: q in reqs ==> q in more
    requires Backed(w, reqs, p)
    ensures Backed(w, more, p)
  {
    var deps: seq<Dep> :| Offered(w, p, deps) && DepsStand(reqs, deps, p.name);
    DepsStillStand(reqs, more, deps, p.name);
  }

  lemma FromIndexGains(w: World, reqs: seq<Requirement>, name: Name, url: string)
    ensures var a := FromIndex(w, reqs, name, url);
            && Gains(reqs, a.reqs, name)
            && (a.ok && a.version.Some? ==> Backed(w, a.reqs, Package(name, a.version.value, url, "", [])))
  {
    var a := FromIndex(w, reqs, name, url);
    if w.index(url, name).Held? {
      var entries := w.index(url, name).entries;
      BestIsHighest(reqs, name, entries);
      var best := Best(reqs, name, entries);
      if best.Some? {
        var e := entries[best.value];
        RequireAllGains(reqs, e.deps, name);
        if a.ok && a.version.Some? {
          var p := Package(name, a.version.value, url, "", []);
          assert Indexed(w, p, e);
          assert Offered(w, p, e.deps);
        }
      }
    }
  }

  lemma {:induction false} FromAnyGains(w: World, reqs: seq<Requirement>, name: Name, i: nat,
                                        winner: Option<(string, string)>)
    requires i <= |w.repositories|
    requires winner.Some? ==> Backed(w, reqs, Package(name, winner.value.0, winner.value.1, "", []))
    ensures var (more, found) := FromAny(w, reqs, name, i, winner);
            && Gains(reqs, more, name)
            && (found.Some? ==> Backed(w, more, Package(name, found.value.0, found.value.1, "", [])))
    decreases |w.repositories| - i
  {
    if i < |w.repositories| {
      var url := w.repositories[i];
      var a := FromIndex(w, reqs, name, url);
      FromIndexGains(w, reqs, name, url);
      if a.ok && !(a.version.Some? && winner.Some?) {
        if winner.Some? {
          StillBacked(w, reqs, a.reqs, Package(name, winner.value.0, winner.value.1, "", []));
        }
        FromAnyGains(w, a.reqs, name, i + 1, if a.version.Some? then Some((a.version.value, url)) else winner);
      }
    }
  }

  lemma PickGains(w: World, reqs: seq<Requirement>, name: Name, repo: string, path: string)
    ensures var (more, pick) := Pick(w, reqs, name, repo, path);
            && Gains(reqs, more, name)
            && (pick.Some? ==> pick.value.name == name && Backed(w, more, pick.value))
  {
    if path != "" {
      var project := w.project(path, name);
      if project.Some? {
        RequireAllGains(reqs, project.value.deps, name);
        assert Offered(w, Package(name, project.value.version, "", path, []), project.value.deps);
      }
    } else if repo != "" {
      FromIndexGains(w, reqs, name, repo);
    } else {
      FromAnyGains(w, reqs, name, 0, None);
    }
  }

  // ---- Every round keeps the picks sound ----

  lemma {:induction false} DropUnique(graph: seq<Package>, gone: set<Name>)
    requires Unique(graph)
    ensures Unique(Drop(graph, gone))
  {
    if graph != [] {
      DropUnique(graph[..|graph| - 1], gone);
      DropKeeps(graph[..|graph| - 1], gone);
    }
  }

  lemma UnpickSound(w: World, s: State, name: Name)
    requires Sound(w, s)
    ensures Sound(w, Unpicked(s, name))
  {
    var gone, after := Taken(s, name), Unpicked(s, name);
    DropUnique(s.graph, gone);
    DropKeeps(s.graph, gone);
    DropFromKeeps(s.reqs, gone);
    forall p | p in after.graph ensures Backed(w, after.reqs, p) {
      var deps: seq<Dep> :| Offered(w, p, deps) && DepsStand(s.reqs, deps, p.name);
      forall d | d in deps ensures Stands(after.reqs, d.name, d.constraint, p.name) {
        var q :| q in s.reqs && q.name == d.name && q.constraint == d.constraint && q.from == p.name;
        assert q in after.reqs;
      }
    }
  }

  lemma ClearedSound(w: World, s: State, name: Name)
    requires Sound(w, s)
    ensures Sound(w, Cleared(s, name)) && name !in Names(Cleared(s, name).graph)
  {
    if name in Names(s.graph) {
      UnpickedIs(s, name);
      UnpickSound(w, s, name);
      UnpickedLacks(s, name);
    }
  }

  lemma AddSound(w: World, s: State, more: seq<Requirement>, p: Package)
    requires Sound(w, s) && p.name !in Names(s.graph) && Gains(s.reqs, more, p.name) && Backed(w, more, p)
    ensures Sound(w, State(more, s.graph + [p]))
  {
    var graph := s.graph + [p];
    forall o | o in graph ensures Backed(w, more, o) {
      if o in s.graph { StillBacked(w, s.reqs, more, o); }
    }
  }

  lemma VisitSound(w: World, s: State, name: Name)
    requires Sound(w, s)
    ensures Visit(w, s, name).ok ==> Sound(w, Visit(w, s, name).s)
  {
    if !Answered(s, name) && SourceOf(s.reqs, name).Some? {
      var source, cleared := SourceOf(s.reqs, name).value, Cleared(s, name);
      ClearedSound(w, s, name);
      PickGains(w, cleared.reqs, name, source.repo, source.path);
      var (more, pick) := Pick(w, cleared.reqs, name, source.repo, source.path);
      if pick.Some? { AddSound(w, cleared, more, pick.value); }
    }
  }

  lemma {:induction false} RoundSound(w: World, s: State, names: seq<Name>)
    requires Sound(w, s)
    ensures VisitAll(w, s, names).ok ==> Sound(w, VisitAll(w, s, names).s)
    decreases |names|
  {
    if names != [] {
      var one := Visit(w, s, names[0]);
      VisitSound(w, s, names[0]);
      if one.ok { RoundSound(w, one.s, names[1..]); }
    }
  }

  /** The state after `k` rounds, or none where one of them fails. */
  function Walked(w: World, s: State, k: nat): (r: Option<State>)
    decreases k
  {
    if k == 0 then Some(s)
    else if !Round(w, s).ok then None
    else Walked(w, Round(w, s).s, k - 1)
  }

  /** After any number of rounds, whether the walk settles or not. */
  lemma {:induction false} RoundsSound(w: World, s: State, k: nat)
    requires Sound(w, s)
    ensures Walked(w, s, k).Some? ==> Sound(w, Walked(w, s, k).value)
    decreases k
  {
    if k > 0 {
      OneRoundSound(w, s);
      if Round(w, s).ok { RoundsSound(w, Round(w, s).s, k - 1); }
    }
  }

  lemma StartSound(w: World, manifest: seq<Dep>)
    ensures Sound(w, Start(manifest))
  {
    RequireAllGains([], manifest, MANIFEST);
  }

  /** What every round keeps, a settled walk has. */
  lemma {:induction false} RoundsInvariant(w: World, s: State, n: nat, keeps: State -> bool)
    requires keeps(s) && forall t :: keeps(t) && Round(w, t).ok ==> keeps(Round(w, t).s)
    ensures Rounds(w, s, n).Some? ==> keeps(Rounds(w, s, n).value)
    decreases n
  {
    hide Round;
    if n > 0 {
      var r := Round(w, s);
      RoundsUnfold(w, s, n, r);
      if r.ok && r.changed { RoundsInvariant(w, r.s, n - 1, keeps); }
    }
  }

  lemma SettledSound(w: World, s: State, n: nat)
    requires Sound(w, s)
    ensures Rounds(w, s, n).Some? ==> Sound(w, Rounds(w, s, n).value)
  {
    forall t | Sound(w, t) && Round(w, t).ok ensures Sound(w, Round(w, t).s) { OneRoundSound(w, t); }
    RoundsInvariant(w, s, n, t => Sound(w, t));
  }

  lemma OneRoundSound(w: World, s: State)
    requires Sound(w, s)
    ensures Round(w, s).ok ==> Sound(w, Round(w, s).s)
  {
    RoundSound(w, s, Required(s.reqs));
  }

  // ---- A round that changes nothing ----

  ghost predicate Settled(s: State) {
    forall q :: q in s.reqs ==> Answered(s, q.name)
  }

  lemma {:induction false} QuietRound(w: World, s: State, names: seq<Name>)
    requires forall n :: n in names ==> SourceOf(s.reqs, n).Some?
    ensures VisitAll(w, s, names) == Walk(s, true, false) <==> forall n :: n in names ==> Answered(s, n)
    ensures VisitAll(w, s, names).ok && !VisitAll(w, s, names).changed ==> VisitAll(w, s, names).s == s
    decreases |names|
  {
    if names != [] {
      assert names == [names[0]] + names[1..];
      if Answered(s, names[0]) { QuietRound(w, s, names[1..]); }
    }
  }

  /** A round changes nothing exactly when every required package has a pick
      that satisfies every constraint on it. */
  lemma QuietIffSettled(w: World, s: State)
    ensures Round(w, s) == Walk(s, true, false) <==> Settled(s)
    ensures Round(w, s).ok && !Round(w, s).changed ==> Round(w, s).s == s
  {
    var names := Required(s.reqs);
    forall n | n in names ensures SourceOf(s.reqs, n).Some? {
      var q :| q in s.reqs && q.name == n;
    }
    QuietRound(w, s, names);
    if forall n :: n in names ==> Answered(s, n) {
      forall q | q in s.reqs ensures Answered(s, q.name) { assert q.name in names; }
    }
  }

  lemma QuietIsSettled(w: World, s: State, r: Walk)
    requires r == Round(w, s) && r.ok && !r.changed
    ensures Settled(r.s)
  {
    QuietIffSettled(w, s);
  }

  lemma {:induction false} RoundsSettle(w: World, s: State, n: nat)
    ensures Rounds(w, s, n).Some? ==> Settled(Rounds(w, s, n).value)
    decreases n
  {
    hide Round, Settled;
    if n > 0 {
      var r := Round(w, s);
      RoundsUnfold(w, s, n, r);
      if r.ok && r.changed { RoundsSettle(w, r.s, n - 1); } else if r.ok { QuietIsSettled(w, s, r); }
    }
  }

  /** The graph holds a pick that answers the dependency. */
  ghost predicate Chosen(s: State, d: Dep) {
    PickOf(s.graph, d.name).Some? && Satisfies(d.constraint, PickOf(s.graph, d.name).value.version)
  }

  lemma StandingIsChosen(s: State, d: Dep, from: Name)
    requires Settled(s) && Stands(s.reqs, d.name, d.constraint, from)
    ensures Chosen(s, d)
  {
    var q :| q in s.reqs && q.name == d.name && q.constraint == d.constraint && q.from == from;
    assert Answered(s, q.name);
  }

  /** A settled walk is closed: whatever the version of a pick depends on, at
      the source it was taken from, stands in the graph with a version that
      satisfies the constraint, and no requirement is left of a package that
      is not picked. */
  lemma ResolutionIsClosed(w: World, manifest: seq<Dep>, s: State)
    requires Rounds(w, Start(manifest), ROUNDS) == Some(s)
    ensures Unique(s.graph)
    ensures forall q :: q in s.reqs ==> (q.from == MANIFEST || q.from in Names(s.graph)) && Answered(s, q.name)
    ensures forall p :: p in s.graph ==> p.needs == []
    ensures forall p :: p in s.graph ==> exists deps :: Offered(w, p, deps) && forall d :: d in deps ==> Chosen(s, d)
  {
    StartSound(w, manifest);
    SettledSound(w, Start(manifest), ROUNDS);
    RoundsSettle(w, Start(manifest), ROUNDS);
    forall p | p in s.graph
      ensures exists deps :: Offered(w, p, deps) && forall d :: d in deps ==> Chosen(s, d)
    {
      var deps: seq<Dep> :| Offered(w, p, deps) && DepsStand(s.reqs, deps, p.name);
      forall d | d in deps ensures Chosen(s, d) { StandingIsChosen(s, d, p.name); }
    }
  }

  // ---- The manifest is never forgotten ----

  /** No dependency has the empty name, which stands for the manifest. */
  ghost predicate NamedDeps(deps: seq<Dep>) {
    forall d :: d in deps && d.valid ==> d.name != MANIFEST
  }

  ghost predicate NamedWorld(w: World) {
    && (forall url, name :: w.index(url, name).Held? ==>
          forall e :: e in w.index(url, name).entries ==> NamedDeps(e.deps))
    && (forall path, name :: w.project(path, name).Some? ==> NamedDeps(w.project(path, name).value.deps))
  }

  ghost predicate NamedReqs(reqs: seq<Requirement>) {
    forall q :: q in reqs ==> q.name != MANIFEST
  }

  lemma {:induction false} RequireAllNamed(reqs: seq<Requirement>, deps: seq<Dep>, from: Name)
    requires NamedReqs(reqs) && NamedDeps(deps)
    ensures NamedReqs(RequireAll(reqs, deps, from).0)
    decreases |deps|
  {
    if deps != [] && deps[0].valid {
      var d := deps[0];
      RequireAllNamed(With(reqs, Requirement(d.name, d.constraint, d.repo, d.path, from)), deps[1..], from);
    }
  }

  lemma FromIndexNamed(w: World, reqs: seq<Requirement>, name: Name, url: string)
    requires NamedWorld(w) && NamedReqs(reqs)
    ensures NamedReqs(FromIndex(w, reqs, name, url).reqs)
  {
    if w.index(url, name).Held? {
      var entries := w.index(url, name).entries;
      var best := Best(reqs, name, entries);
      if best.Some? { RequireAllNamed(reqs, entries[best.value].deps, name); }
    }
  }

  lemma {:induction false} FromAnyNamed(w: World, reqs: seq<Requirement>, name: Name, i: nat,
                                        winner: Option<(string, string)>)
    requires NamedWorld(w) && NamedReqs(reqs) && i <= |w.repositories|
    ensures NamedReqs(FromAny(w, reqs, name, i, winner).0)
    decreases |w.repositories| - i
  {
    if i < |w.repositories| {
      var url := w.repositories[i];
      FromIndexNamed(w, reqs, name, url);
      var a := FromIndex(w, reqs, name, url);
      FromAnyNamed(w, a.reqs, name, i + 1, if a.version.Some? then Some((a.version.value, url)) else winner);
    }
  }

  lemma VisitNamed(w: World, s: State, name: Name)
    requires NamedWorld(w) && NamedReqs(s.reqs)
    ensures NamedReqs(Visit(w, s, name).s.reqs)
    ensures forall q :: q in s.reqs && q.from == MANIFEST ==> q in Visit(w, s, name).s.reqs
  {
    if !Answered(s, name) && SourceOf(s.reqs, name).Some? {
      var source, cleared := SourceOf(s.reqs, name).value, Cleared(s, name);
      ClearedKeepsManifest(s, name);
      PickGains(w, cleared.reqs, name, source.repo, source.path);
      if source.path != "" {
        var project := w.project(source.path, name);
        if project.Some? { RequireAllNamed(cleared.reqs, project.value.deps, name); }
      } else if source.repo != "" {
        FromIndexNamed(w, cleared.reqs, name, source.repo);
      } else {
        FromAnyNamed(w, cleared.reqs, name, 0, None);
      }
    }
  }

  lemma NothingReachesManifest(s: State, name: Name)
    requires NamedReqs(s.reqs) && name != MANIFEST
    ensures !Reaches(s, name, MANIFEST)
  {
    forall p | Chain(s, p) && p[0] == name ensures p[|p| - 1] != MANIFEST {
      if |p| > 1 {
        var i := |p| - 2;
        assert Link(s, p[i], p[i + 1]);
      }
    }
  }

  /** Nothing reaches the manifest, so its requirements are never taken
      back. */
  lemma ClearedKeepsManifest(s: State, name: Name)
    requires NamedReqs(s.reqs) && exists q :: q in s.reqs && q.name == name
    ensures NamedReqs(Cleared(s, name).reqs)
    ensures forall q :: q in s.reqs && q.from == MANIFEST ==> q in Cleared(s, name).reqs
  {
    if PickOf(s.graph, name).Some? {
      UnpickedIs(s, name);
      DropFromKeeps(s.reqs, Taken(s, name));
      NothingReachesManifest(s, name);
    }
  }

  lemma {:induction false} RoundNamed(w: World, s: State, names: seq<Name>)
    requires NamedWorld(w) && NamedReqs(s.reqs)
    ensures NamedReqs(VisitAll(w, s, names).s.reqs)
    ensures forall q :: q in s.reqs && q.from == MANIFEST ==> q in VisitAll(w, s, names).s.reqs
    decreases |names|
  {
    if names != [] {
      VisitNamed(w, s, names[0]);
      var one := Visit(w, s, names[0]);
      if one.ok { RoundNamed(w, one.s, names[1..]); }
    }
  }

  lemma RoundsNamed(w: World, s: State, n: nat)
    requires NamedWorld(w) && NamedReqs(s.reqs) && Rounds(w, s, n).Some?
    ensures forall q :: q in s.reqs && q.from == MANIFEST ==> q in Rounds(w, s, n).value.reqs
  {
    forall t: State | NamedReqs(t.reqs) && ManifestStays(s, t) && Round(w, t).ok
      ensures NamedReqs(Round(w, t).s.reqs) && ManifestStays(s, Round(w, t).s)
    {
      OneRoundNamed(w, t);
    }
    RoundsInvariant(w, s, n, (t: State) => NamedReqs(t.reqs) && ManifestStays(s, t));
  }

  /** The requirements the manifest makes at first still stand. */
  ghost predicate ManifestStays(s: State, t: State) {
    forall q :: q in s.reqs && q.from == MANIFEST ==> q in t.reqs
  }

  lemma OneRoundNamed(w: World, s: State)
    requires NamedWorld(w) && NamedReqs(s.reqs)
    ensures NamedReqs(Round(w, s).s.reqs)
    ensures forall q :: q in s.reqs && q.from == MANIFEST ==> q in Round(w, s).s.reqs
  {
    RoundNamed(w, s, Required(s.reqs));
  }

  /** Every dependency of the manifest stands in a settled graph with a
      version its constraint takes. */
  lemma ManifestIsAnswered(w: World, manifest: seq<Dep>, s: State, d: Dep)
    requires NamedWorld(w) && NamedDeps(manifest) && (forall m :: m in manifest ==> m.valid) && d in manifest
    requires Rounds(w, Start(manifest), ROUNDS) == Some(s)
    ensures Chosen(s, d)
  {
    RequireAllNamed([], manifest, MANIFEST);
    RequireAllGains([], manifest, MANIFEST);
    AllValid([], manifest, MANIFEST);
    RoundsNamed(w, Start(manifest), ROUNDS);
    RoundsSettle(w, Start(manifest), ROUNDS);
    var q :| q in Start(manifest).reqs && q.name == d.name && q.constraint == d.constraint && q.from == MANIFEST;
    assert Answered(s, q.name);
  }

  lemma {:induction false} AllValid(reqs: seq<Requirement>, deps: seq<Dep>, from: Name)
    requires forall d :: d in deps ==> d.valid
    ensures RequireAll(reqs, deps, from).1
    decreases |deps|
  {
    if deps != [] {
      var d := deps[0];
      AllValid(With(reqs, Requirement(d.name, d.constraint, d.repo, d.path, from)), deps[1..], from);
    }
  }

  /** The needs recorded for a pick are the packages its requirements are on,
      and in a settled walk they all stand in the graph. */
  lemma NeedsStand(s: State, i: nat)
    requires Settled(s) && i < |s.graph| && s.graph[i].needs == []
    ensures forall n :: n in Recorded(s).graph[i].needs <==>
              exists q :: q in s.reqs && q.from == s.graph[i].name && q.name == n
    ensures forall n :: n in Recorded(s).graph[i].needs ==> n in Names(Recorded(s).graph)
  {
    var name := s.graph[i].name;
    NeedsAre(s.reqs, name);
    forall n | n in Recorded(s).graph[i].needs ensures n in Names(Recorded(s).graph) {
      var q :| q in s.reqs && q.from == name && q.name == n;
      assert Answered(s, q.name);
      var p :| p in s.graph && p.name == n;
      var k :| 0 <= k < |s.graph| && s.graph[k] == p;
      assert Recorded(s).graph[k] in Recorded(s).graph && Recorded(s).graph[k].name == n;
    }
  }

  lemma {:induction false} NeedsAre(reqs: seq<Requirement>, name: Name)
    ensures forall n :: n in NeedsFrom([], reqs, name) <==> exists q :: q in reqs && q.from == name && q.name == n
  {
    if reqs != [] {
      var front, last := reqs[..|reqs| - 1], reqs[|reqs| - 1];
      NeedsAre(front, name);
      assert reqs == front + [last];
    }
  }

  // ---- Whether the manifest reaches every pick ----

  ghost predicate Rooted(s: State) {
    forall x :: x in Names(s.graph) ==> Reaches(s, MANIFEST, x)
  }

  /** The state after the pick of `name` is taken back and made again. */
  ghost predicate Remade(s: State, name: Name, t: State) {
    var cleared := Unpicked(s, name);
    exists p: Package :: p.name == name && t.graph == cleared.graph + [p] && Gains(cleared.reqs, t.reqs, name)
  }

  lemma RemadeKeeps(s: State, name: Name, t: State)
    requires Remade(s, name, t)
    ensures Names(t.graph) == (Names(s.graph) - Taken(s, name)) + {name}
    ensures forall q :: q in s.reqs && q.from !in Taken(s, name) ==> q in t.reqs
    ensures forall q :: q in t.reqs && q.from != name ==> q in s.reqs && q.from !in Taken(s, name)
  {
    var cleared := Unpicked(s, name);
    var p: Package :| p.name == name && t.graph == cleared.graph + [p] && Gains(cleared.reqs, t.reqs, name);
    DropKeeps(s.graph, Taken(s, name));
    DropFromKeeps(s.reqs, Taken(s, name));
    assert p in t.graph;
    forall x | x in Names(s.graph) - Taken(s, name) ensures x in Names(t.graph) {
      var o :| o in s.graph && o.name == x;
      assert o in t.graph;
    }
  }

  /** What the manifest reached by way of picks that stay, it still reaches. */
  lemma {:induction false} PathSurvives(s: State, name: Name, t: State, p: seq<Name>)
    requires Remade(s, name, t) && Chain(s, p) && p[|p| - 1] !in Taken(s, name)
    ensures Reaches(t, p[0], p[|p| - 1])
    decreases |p|
  {
    if |p| == 1 {
      ReachesItself(t, p[0]);
    } else {
      var front := p[..|p| - 1];
      var y, x := front[|front| - 1], p[|p| - 1];
      assert Link(s, p[|p| - 2], p[|p| - 2 + 1]);
      if y in Taken(s, name) { ReachesOn(s, name, y, x); }
      forall i | 0 <= i < |front| - 1 ensures Link(s, front[i], front[i + 1]) {
        assert Link(s, p[i], p[i + 1]);
      }
      PathSurvives(s, name, t, front);
      RemadeKeeps(s, name, t);
      var q :| q in s.reqs && q.from == y && q.name == x;
      assert q in t.reqs;
      assert Link(t, y, x);
      ReachesOn(t, p[0], y, x);
    }
  }

  /** A path that ends at a name it does not start from enters it. */
  lemma {:induction false} PathEnters(t: State, p: seq<Name>, name: Name) returns (q: Requirement)
    requires Chain(t, p) && p[0] != name && p[|p| - 1] == name
    ensures q in t.reqs && q.name == name && q.from != name
    decreases |p|
  {
    assert Link(t, p[0], p[0 + 1]);
    if p[1] == name {
      q :| q in t.reqs && q.from == p[0] && q.name == p[1];
    } else {
      var rest := p[1..];
      forall i | 0 <= i < |rest| - 1 ensures Link(t, rest[i], rest[i + 1]) {
        assert Link(t, p[i + 1], p[i + 1 + 1]);
      }
      q := PathEnters(t, rest, name);
    }
  }

  /** A new pick leaves every pick reachable from the manifest exactly when
      some requirement on the package is made by what the package does not
      reach itself. Where all of them come from its own dependants, they go
      back with the old pick, and the name is picked again all the same. */
  lemma RootedIffRequiredElsewhere(s: State, name: Name, t: State)
    requires Rooted(s) && NamedReqs(s.reqs) && name != MANIFEST && Remade(s, name, t)
    requires forall q :: q in s.reqs ==> q.from == MANIFEST || q.from in Names(s.graph)
    ensures Rooted(t) <==> exists q :: q in s.reqs && q.name == name && q.from !in Taken(s, name)
  {
    RemadeKeeps(s, name, t);
    NothingReachesManifest(s, name);
    if exists q :: q in s.reqs && q.name == name && q.from !in Taken(s, name) {
      var q :| q in s.reqs && q.name == name && q.from !in Taken(s, name);
      ReachesItself(t, MANIFEST);
      forall x | x == q.from || (x in Names(t.graph) && x != name) ensures Reaches(t, MANIFEST, x) {
        if x != MANIFEST {
          var p :| Chain(s, p) && p[0] == MANIFEST && p[|p| - 1] == x;
          PathSurvives(s, name, t, p);
        }
      }
      assert q in t.reqs;
      assert Link(t, q.from, name);
      ReachesOn(t, MANIFEST, q.from, name);
    }
    if Rooted(t) {
      var p :| Chain(t, p) && p[0] == MANIFEST && p[|p| - 1] == name;
      var q := PathEnters(t, p, name);
      assert q in s.reqs && q.name == name && q.from !in Taken(s, name);
    }
  }

  lemma RepickRemakes(w: World, s: State, name: Name, source: Requirement)
    requires name in Names(s.graph) && Repick(w, s, name, source).1
    ensures Remade(s, name, Repick(w, s, name, source).0)
  {
    UnpickedIs(s, name);
    var cleared := Unpicked(s, name);
    PickGains(w, cleared.reqs, name, source.repo, source.path);
    var pick := Pick(w, cleared.reqs, name, source.repo, source.path).1;
    assert Repick(w, s, name, source).0.graph == cleared.graph + [pick.value];
  }
}
