/** Where a pick of the resolver comes from: which requirement names its source,
    what a repository answers, and that the package stands in one place only. */
module DepsSources {
  import opened Options
  import opened Version
  import opened Deps

  // ---- The requirement that names the source ----

  predicate Sourced(q: Requirement) {
    q.path != "" || q.repo != ""
  }

  /** The first requirement on `name`, among those with a source where `sourced`
      says so. */
  ghost predicate FirstAt(reqs: seq<Requirement>, name: Name, sourced: bool, k: nat) {
    && k < |reqs| && reqs[k].name == name && (sourced ==> Sourced(reqs[k]))
    && forall j :: 0 <= j < k ==> !(reqs[j].name == name && (sourced ==> Sourced(reqs[j])))
  }

  ghost predicate IsFirst(reqs: seq<Requirement>, name: Name, sourced: bool, q: Requirement) {
    exists k: nat :: FirstAt(reqs, name, sourced, k) && reqs[k] == q
  }

  lemma {:induction false} FirstOfIs(reqs: seq<Requirement>, name: Name, sourced: bool)
    ensures match FirstOf(reqs, name, sourced)
            case None => forall q :: q in reqs && q.name == name ==> sourced && !Sourced(q)
            case Some(q) => IsFirst(reqs, name, sourced, q)
    decreases |reqs|
  {
    if reqs != [] {
      if reqs[0].name == name && (!sourced || Sourced(reqs[0])) {
        assert FirstAt(reqs, name, sourced, 0);
      } else {
        FirstOfIs(reqs[1..], name, sourced);
        assert reqs == [reqs[0]] + reqs[1..];
        if FirstOf(reqs[1..], name, sourced).Some? {
          var k: nat :| FirstAt(reqs[1..], name, sourced, k) && reqs[1..][k] == FirstOf(reqs, name, sourced).value;
          FirstBehind(reqs, name, sourced, k);
        }
      }
    }
  }

  lemma FirstBehind(reqs: seq<Requirement>, name: Name, sourced: bool, k: nat)
    requires reqs != [] && FirstAt(reqs[1..], name, sourced, k)
    requires !(reqs[0].name == name && (sourced ==> Sourced(reqs[0])))
    ensures FirstAt(reqs, name, sourced, k + 1) && reqs[k + 1] == reqs[1..][k]
  {
    forall j | 0 <= j < k + 1 ensures !(reqs[j].name == name && (sourced ==> Sourced(reqs[j]))) {
      if j > 0 { assert reqs[1..][j - 1] == reqs[j]; }
    }
  }

  /** A requirement that names a path or a repository says where a package comes
      from, the first of them, however many without a source come before. */
  lemma SourceIs(reqs: seq<Requirement>, name: Name)
    ensures var r := SourceOf(reqs, name);
            && (r.None? <==> forall q :: q in reqs ==> q.name != name)
            && (r.Some? ==>
                  IsFirst(reqs, name, exists q :: q in reqs && q.name == name && Sourced(q), r.value))
  {
    FirstOfIs(reqs, name, true);
    FirstOfIs(reqs, name, false);
  }

  // ---- What a repository answers ----

  /** An entry that may be picked. */
  ghost predicate Offers(reqs: seq<Requirement>, name: Name, e: Entry) {
    !e.yanked && forall q :: q in reqs && q.name == name ==> Satisfies(q.constraint, e.version)
  }

  /** The repository holds a version that every constraint takes. */
  ghost predicate Holds(w: World, reqs: seq<Requirement>, name: Name, url: string) {
    w.index(url, name).Held? && exists e :: e in w.index(url, name).entries && Offers(reqs, name, e)
  }

  /** The entry a pick takes: of those that may be picked, none is of a higher
      version, and none of the same comes first. */
  ghost predicate Chosen(reqs: seq<Requirement>, name: Name, entries: seq<Entry>, b: nat) {
    && b < |entries| && Offers(reqs, name, entries[b])
    && (forall i :: 0 <= i < |entries| && Offers(reqs, name, entries[i]) ==>
          !Below(PartsOf(entries[b].version), PartsOf(entries[i].version)))
    && forall i :: 0 <= i < b && Offers(reqs, name, entries[i]) ==>
         Below(PartsOf(entries[i].version), PartsOf(entries[b].version))
  }

  /** The repository says of the package what the tool can read: there is an
      answer, its versions are versions, and the one that would be picked has
      its modules and its dependencies in order. */
  ghost predicate Clear(w: World, reqs: seq<Requirement>, name: Name, url: string) {
    && !w.index(url, name).Refused?
    && (w.index(url, name).Held? ==>
          var entries := w.index(url, name).entries;
          && (forall e :: e in entries ==> ValidFrom(e.version, 0, 3))
          && (forall b: nat :: Chosen(reqs, name, entries, b) ==>
                entries[b].modules && forall d :: d in entries[b].deps ==> d.valid))
  }

  lemma {:induction false} AllVersionsValid(entries: seq<Entry>, n: nat)
    requires n <= |entries|
    ensures VersionsValid(entries, n) <==> forall i :: 0 <= i < n ==> ValidFrom(entries[i].version, 0, 3)
    decreases n
  {
    if n > 0 { AllVersionsValid(entries, n - 1); }
  }

  lemma {:induction false} AllDepsValid(reqs: seq<Requirement>, deps: seq<Dep>, from: Name)
    ensures RequireAll(reqs, deps, from).1 <==> forall d :: d in deps ==> d.valid
    decreases |deps|
  {
    if deps != [] && deps[0].valid {
      var d := deps[0];
      AllDepsValid(With(reqs, Requirement(d.name, d.constraint, d.repo, d.path, from)), deps[1..], from);
      assert deps == [d] + deps[1..];
    }
  }

  lemma BestIsChosen(reqs: seq<Requirement>, name: Name, entries: seq<Entry>)
    ensures match Best(reqs, name, entries)
            case None => forall i :: 0 <= i < |entries| ==> !Offers(reqs, name, entries[i])
            case Some(b) => Chosen(reqs, name, entries, b)
  {
    BestIsHighest(reqs, name, entries);
    var answers, versions := AllAnswers(reqs, name, entries), AllVersions(entries);
    forall i | 0 <= i < |entries| ensures answers[i] == Offers(reqs, name, entries[i]) {}
    var best := Best(reqs, name, entries);
    if best.Some? {
      var b := best.value;
      forall i | 0 <= i < |entries| && Offers(reqs, name, entries[i])
        ensures !Below(versions[b], versions[i]) && (i < b ==> Below(versions[i], versions[b]))
      {
        assert AtLeast(versions, b, i);
      }
    }
  }

  lemma ChosenOnce(reqs: seq<Requirement>, name: Name, entries: seq<Entry>, b: nat, c: nat)
    requires Chosen(reqs, name, entries, b) && Chosen(reqs, name, entries, c)
    ensures b == c
  {
  }

  /** The version of the entry that is picked, and the requirements with its
      dependencies. */
  ghost predicate TakesChosen(reqs: seq<Requirement>, name: Name, entries: seq<Entry>, version: string,
                              more: seq<Requirement>) {
    exists b: nat :: Chosen(reqs, name, entries, b) && ChosenGives(reqs, name, entries, b, version, more)
  }

  ghost predicate ChosenGives(reqs: seq<Requirement>, name: Name, entries: seq<Entry>, b: nat, version: string,
                              more: seq<Requirement>)
    requires b < |entries|
  {
    version == entries[b].version && more == RequireAll(reqs, entries[b].deps, name).0
  }

  /** One repository asked: it says what can be read or the walk fails; it gives
      a version exactly where it holds one, the highest; and only then are new
      requirements made. */
  lemma FromIndexIs(w: World, reqs: seq<Requirement>, name: Name, url: string)
    ensures var a := FromIndex(w, reqs, name, url);
            && (a.ok <==> Clear(w, reqs, name, url))
            && (a.ok ==> (a.version.Some? <==> Holds(w, reqs, name, url)))
            && (a.ok && a.version.Some? ==>
                  TakesChosen(reqs, name, w.index(url, name).entries, a.version.value, a.reqs))
            && (a.version.None? ==> a.reqs == reqs)
  {
    hide RequireAll, Best, VersionsValid, ValidFrom, PartsOf, Satisfies;
    if w.index(url, name).Held? {
      var entries := w.index(url, name).entries;
      AllVersionsValid(entries, |entries|);
      BestIsChosen(reqs, name, entries);
      var best := Best(reqs, name, entries);
      if best.Some? {
        AllDepsValid(reqs, entries[best.value].deps, name);
        assert entries[best.value] in entries;
        forall b: nat | Chosen(reqs, name, entries, b) ensures b == best.value {
          ChosenOnce(reqs, name, entries, b, best.value);
        }
      }
    }
  }

  // ---- A package that names no repository ----

  /** The requirements when repository `i` is asked. */
  function Asked(w: World, reqs: seq<Requirement>, name: Name, i: nat): (r: seq<Requirement>)
    requires i <= |w.repositories|
    decreases i
  {
    if i == 0 then reqs else FromIndex(w, Asked(w, reqs, name, i - 1), name, w.repositories[i - 1]).reqs
  }

  ghost predicate ClearAt(w: World, reqs: seq<Requirement>, name: Name, i: nat)
    requires i < |w.repositories|
  {
    Clear(w, Asked(w, reqs, name, i), name, w.repositories[i])
  }

  ghost predicate HoldsAt(w: World, reqs: seq<Requirement>, name: Name, i: nat)
    requires i < |w.repositories|
  {
    Holds(w, Asked(w, reqs, name, i), name, w.repositories[i])
  }

  /** Every repository answers, and one of them alone holds the package. */
  ghost predicate OnlyHolder(w: World, reqs: seq<Requirement>, name: Name, k: nat) {
    && k < |w.repositories| && HoldsAt(w, reqs, name, k)
    && (forall i :: 0 <= i < |w.repositories| ==> ClearAt(w, reqs, name, i))
    && (forall i :: 0 <= i < |w.repositories| && HoldsAt(w, reqs, name, i) ==> i == k)
  }

  ghost function VersionAt(w: World, reqs: seq<Requirement>, name: Name, i: nat): (v: Option<string>)
    requires i < |w.repositories|
  {
    FromIndex(w, Asked(w, reqs, name, i), name, w.repositories[i]).version
  }

  ghost predicate HeldBy(w: World, reqs: seq<Requirement>, name: Name, k: nat, version: string, url: string) {
    OnlyHolder(w, reqs, name, k) && url == w.repositories[k] && VersionAt(w, reqs, name, k) == Some(version)
  }

  /** The repositories before `i` all answered, and `winner` is what the one
      holder among them gave, if there is one. */
  ghost predicate Searched(w: World, reqs: seq<Requirement>, name: Name, i: nat, winner: Option<(string, string)>)
    requires i <= |w.repositories|
  {
    && (forall j :: 0 <= j < i ==> ClearAt(w, reqs, name, j))
    && (winner.None? ==> forall j :: 0 <= j < i ==> !HoldsAt(w, reqs, name, j))
    && (winner.Some? ==> exists k: nat :: Winner(w, reqs, name, i, winner.value, k))
  }

  ghost predicate Winner(w: World, reqs: seq<Requirement>, name: Name, i: nat, winner: (string, string), k: nat)
    requires i <= |w.repositories|
  {
    && k < i && HoldsAt(w, reqs, name, k) && (forall j :: 0 <= j < i && HoldsAt(w, reqs, name, j) ==> j == k)
    && winner.1 == w.repositories[k] && VersionAt(w, reqs, name, k) == Some(winner.0)
  }

  lemma {:induction false} FromAnyIs(w: World, reqs: seq<Requirement>, name: Name, i: nat,
                                     winner: Option<(string, string)>)
    requires i <= |w.repositories| && Searched(w, reqs, name, i, winner)
    ensures var found := FromAny(w, Asked(w, reqs, name, i), name, i, winner).1;
            && (found.Some? ==> exists k: nat :: HeldBy(w, reqs, name, k, found.value.0, found.value.1))
            && (found.None? ==> forall k: nat :: !OnlyHolder(w, reqs, name, k))
    decreases |w.repositories| - i
  {
    hide FromIndex, Clear, Holds;
    if i == |w.repositories| {
      if winner.Some? {
        var k: nat :| Winner(w, reqs, name, i, winner.value, k);
        assert HeldBy(w, reqs, name, k, winner.value.0, winner.value.1);
      }
    } else {
      var a := FromIndex(w, Asked(w, reqs, name, i), name, w.repositories[i]);
      FromIndexIs(w, Asked(w, reqs, name, i), name, w.repositories[i]);
      assert a.ok <==> ClearAt(w, reqs, name, i);
      assert a.ok ==> (a.version.Some? <==> HoldsAt(w, reqs, name, i));
      if a.ok && !(a.version.Some? && winner.Some?) {
        var held := if a.version.Some? then Some((a.version.value, w.repositories[i])) else winner;
        SearchedOn(w, reqs, name, i, winner, held);
        FromAnyIs(w, reqs, name, i + 1, held);
        assert Asked(w, reqs, name, i + 1) == a.reqs;
      } else if a.ok {
        var k: nat :| Winner(w, reqs, name, i, winner.value, k);
      }
    }
  }

  lemma SearchedOn(w: World, reqs: seq<Requirement>, name: Name, i: nat, winner: Option<(string, string)>,
                   held: Option<(string, string)>)
    requires i < |w.repositories| && Searched(w, reqs, name, i, winner) && ClearAt(w, reqs, name, i)
    requires VersionAt(w, reqs, name, i).Some? <==> HoldsAt(w, reqs, name, i)
    requires VersionAt(w, reqs, name, i).None? || winner.None?
    requires var v := VersionAt(w, reqs, name, i);
             held == if v.Some? then Some((v.value, w.repositories[i])) else winner
    ensures Searched(w, reqs, name, i + 1, held)
  {
    hide FromIndex, Clear, Holds, VersionAt, HoldsAt, ClearAt;
    if VersionAt(w, reqs, name, i).Some? {
      assert Winner(w, reqs, name, i + 1, held.value, i);
    } else if winner.Some? {
      var k: nat :| Winner(w, reqs, name, i, winner.value, k);
      assert Winner(w, reqs, name, i + 1, winner.value, k);
    }
  }

  /** A package that names no repository is picked exactly where every
      repository of the manifest answers and one of them alone holds it, and
      then from there. */
  lemma UnnamedPick(w: World, reqs: seq<Requirement>, name: Name)
    ensures var pick := Pick(w, reqs, name, "", "").1;
            && (pick.Some? <==> exists k: nat :: OnlyHolder(w, reqs, name, k))
            && (pick.Some? ==> exists k: nat :: HeldBy(w, reqs, name, k, pick.value.version, pick.value.repo))
            && (pick.Some? ==> pick.value.name == name && pick.value.path == "" && pick.value.needs == [])
  {
    hide FromIndex, Clear, Holds, FromAny;
    FromAnyIs(w, reqs, name, 0, None);
    if FromAny(w, reqs, name, 0, None).1.Some? {
      var found := FromAny(w, reqs, name, 0, None).1.value;
      var k: nat :| HeldBy(w, reqs, name, k, found.0, found.1);
      assert OnlyHolder(w, reqs, name, k);
    }
  }

  /** From a repository that is named: that one, where it answers and holds the
      package. */
  lemma NamedPick(w: World, reqs: seq<Requirement>, name: Name, repo: string)
    requires repo != ""
    ensures var pick := Pick(w, reqs, name, repo, "").1;
            && (pick.Some? <==> Clear(w, reqs, name, repo) && Holds(w, reqs, name, repo))
            && (pick.Some? ==>
                  && pick.value == Package(name, pick.value.version, repo, "", [])
                  && TakesChosen(reqs, name, w.index(repo, name).entries, pick.value.version,
                                 Pick(w, reqs, name, repo, "").0))
  {
    hide FromIndex, Clear, Holds, TakesChosen;
    FromIndexIs(w, reqs, name, repo);
  }

  /** From a path, whatever repository is named beside it: the project there,
      where its dependencies are in order and its version satisfies every
      constraint, those it makes itself among them. */
  lemma PathPick(w: World, reqs: seq<Requirement>, name: Name, repo: string, path: string)
    requires path != ""
    ensures var (more, pick) := Pick(w, reqs, name, repo, path);
            && (pick.Some? <==>
                  && w.project(path, name).Some? && (forall d :: d in w.project(path, name).value.deps ==> d.valid)
                  && more == RequireAll(reqs, w.project(path, name).value.deps, name).0
                  && forall q :: q in more && q.name == name ==>
                       Satisfies(q.constraint, w.project(path, name).value.version))
            && (pick.Some? ==> pick.value == Package(name, w.project(path, name).value.version, "", path, []))
  {
    if w.project(path, name).Some? { AllDepsValid(reqs, w.project(path, name).value.deps, name); }
  }

  /** The requirements a list of dependencies makes, behind those that
      stand. */
  lemma {:induction false} RequiredBehind(reqs: seq<Requirement>, deps: seq<Dep>, from: Name)
    ensures var more := RequireAll(reqs, deps, from).0;
            && reqs <= more
            && (forall q :: q in more ==> q in reqs || (q.from == from && exists d :: d in deps && Makes(d, q)))
    decreases |deps|
  {
    if deps != [] && deps[0].valid {
      var d := deps[0];
      var one := With(reqs, Requirement(d.name, d.constraint, d.repo, d.path, from));
      RequiredBehind(one, deps[1..], from);
      assert Makes(d, Requirement(d.name, d.constraint, d.repo, d.path, from));
    }
  }

  ghost predicate Makes(d: Dep, q: Requirement) {
    q.name == d.name && q.constraint == d.constraint && q.repo == d.repo && q.path == d.path
  }

  // ---- Where the walk fails ----

  lemma {:induction false} FailedVisit(w: World, s: State, names: seq<Name>, k: nat)
    requires k < |names| && VisitAll(w, s, names[..k]).ok && !Visit(w, VisitAll(w, s, names[..k]).s, names[k]).ok
    ensures !VisitAll(w, s, names).ok
    decreases k
  {
    if k > 0 {
      var one := Visit(w, s, names[0]);
      assert names[..k][0] == names[0] && names[..k][1..] == names[1..][..k - 1];
      FailedVisit(w, one.s, names[1..], k - 1);
    } else {
      assert names[..0] == [];
    }
  }

  /** A visit of a package that two repositories hold, or of which one gives no
      answer, fails the walk. */
  lemma UnclearVisit(w: World, s: State, name: Name)
    requires !Answered(s, name) && SourceOf(s.reqs, name).Some? && !Sourced(SourceOf(s.reqs, name).value)
    requires forall k: nat :: !OnlyHolder(w, Cleared(s, name).reqs, name, k)
    ensures !Visit(w, s, name).ok
  {
    hide Pick, Cleared;
    UnnamedPick(w, Cleared(s, name).reqs, name);
  }

  /** Two holders, or one repository without an answer. */
  lemma NotOnly(w: World, reqs: seq<Requirement>, name: Name, i: nat, j: nat)
    requires i < |w.repositories| && j < |w.repositories|
    requires (i != j && HoldsAt(w, reqs, name, i) && HoldsAt(w, reqs, name, j)) || !ClearAt(w, reqs, name, i)
    ensures forall k: nat :: !OnlyHolder(w, reqs, name, k)
  {
  }

  /** A manifest whose first dependency names no source, and that two
      repositories hold or one gives no answer of, has no resolution: the first
      round fails. */
  lemma UnclearManifest(w: World, manifest: seq<Dep>, i: nat, j: nat)
    requires manifest != [] && manifest[0].valid
    requires var (reqs, name) := (Start(manifest).reqs, manifest[0].name);
             && (forall q :: q in reqs && q.name == name ==> !Sourced(q))
             && i < |w.repositories| && j < |w.repositories|
             && ((i != j && HoldsAt(w, reqs, name, i) && HoldsAt(w, reqs, name, j)) || !ClearAt(w, reqs, name, i))
    ensures Rounds(w, Start(manifest), 64).None?
  {
    hide Rounds, HoldsAt, ClearAt;
    var (s, name) := (Start(manifest), manifest[0].name);
    var names := Required(s.reqs);
    FirstRequired(manifest);
    NotOnly(w, s.reqs, name, i, j);
    UnclearVisit(w, s, name);
    assert names[..0] == [];
    FailedVisit(w, s, names, 0);
    RoundsUnfold(w, s, 64, Round(w, s));
  }

  lemma FirstRequired(manifest: seq<Dep>)
    requires manifest != [] && manifest[0].valid
    ensures var (s, name) := (Start(manifest), manifest[0].name);
            && s.graph == [] && s.reqs != [] && s.reqs[0].name == name && Required(s.reqs) != []
            && Required(s.reqs)[0] == name
  {
    var d := manifest[0];
    var one := With([], Requirement(d.name, d.constraint, d.repo, d.path, MANIFEST));
    RequiredBehind(one, manifest[1..], MANIFEST);
    assert one == [Requirement(d.name, d.constraint, d.repo, d.path, MANIFEST)];
    RequiredFirst(Start(manifest).reqs);
  }

  lemma {:induction false} RequiredFirst(reqs: seq<Requirement>)
    requires reqs != []
    ensures Required(reqs) != [] && Required(reqs)[0] == reqs[0].name
    decreases |reqs|
  {
    if |reqs| > 1 {
      RequiredFirst(reqs[..|reqs| - 1]);
    } else {
      assert reqs[..0] == [] && Required([]) == [];
    }
  }
}
