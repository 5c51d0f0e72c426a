/** The dependency resolver of deps.c: requirements, picks, and taking a pick
    back. The index of a repository and the project of a path are functions. */
module Deps {
  import opened Options
  import opened Version

  type Name = string

  /** What one package, or the manifest, asks of another: `from` is the one
      that asks, and the manifest has the empty name. */
  datatype Requirement = Requirement(name: Name, constraint: string, repo: string, path: string, from: Name)

  /** One pick, with the packages it needs once the walk has settled. */
  datatype Package = Package(name: Name, version: string, repo: string, path: string, needs: seq<Name>)

  datatype State = State(reqs: seq<Requirement>, graph: seq<Package>)

  const MANIFEST := ""

  function Names(graph: seq<Package>): (names: set<Name>) {
    set p | p in graph :: p.name
  }

  ghost predicate Unique(graph: seq<Package>) {
    forall i, j :: 0 <= i < j < |graph| ==> graph[i].name != graph[j].name
  }

  // ---- Taking a pick back ----

  function Drop(graph: seq<Package>, gone: set<Name>): (r: seq<Package>)
    ensures |r| <= |graph|
  {
    if graph == [] then []
    else
      var front, last := Drop(graph[..|graph| - 1], gone), graph[|graph| - 1];
      if last.name in gone then front else front + [last]
  }

  function DropFrom(reqs: seq<Requirement>, gone: set<Name>): (r: seq<Requirement>)
    ensures |r| <= |reqs|
  {
    if reqs == [] then []
    else
      var front, last := DropFrom(reqs[..|reqs| - 1], gone), reqs[|reqs| - 1];
      if last.from in gone then front else front + [last]
  }

  lemma {:induction false} DropKeeps(graph: seq<Package>, gone: set<Name>)
    ensures forall p :: p in Drop(graph, gone) <==> p in graph && p.name !in gone
  {
    if graph != [] {
      var front, last := graph[..|graph| - 1], graph[|graph| - 1];
      DropKeeps(front, gone);
      assert graph == front + [last];
    }
  }

  lemma {:induction false} DropFromKeeps(reqs: seq<Requirement>, gone: set<Name>)
    ensures forall q :: q in DropFrom(reqs, gone) <==> q in reqs && q.from !in gone
  {
    if reqs != [] {
      var front, last := reqs[..|reqs| - 1], reqs[|reqs| - 1];
      DropFromKeeps(front, gone);
      assert reqs == front + [last];
    }
  }

  lemma DropMore(graph: seq<Package>, last: Package, gone: set<Name>)
    ensures Drop(graph + [last], gone) == if last.name in gone then Drop(graph, gone) else Drop(graph, gone) + [last]
  {
    assert (graph + [last])[..|graph|] == graph;
  }

  lemma DropFromMore(reqs: seq<Requirement>, last: Requirement, gone: set<Name>)
    ensures DropFrom(reqs + [last], gone) ==
            if last.from in gone then DropFrom(reqs, gone) else DropFrom(reqs, gone) + [last]
  {
    assert (reqs + [last])[..|reqs|] == reqs;
  }

  /** A requirement of `a` on the picked package `b`. */
  ghost predicate Link(s: State, a: Name, b: Name) {
    b in Names(s.graph) && exists q :: q in s.reqs && q.from == a && q.name == b
  }

  ghost predicate Chain(s: State, p: seq<Name>) {
    |p| > 0 && forall i :: 0 <= i < |p| - 1 ==> Link(s, p[i], p[i + 1])
  }

  ghost predicate Reaches(s: State, a: Name, b: Name) {
    exists p :: Chain(s, p) && p[0] == a && p[|p| - 1] == b
  }

  /** The picks that go back with `name`: those it reaches along the
      requirements of picked packages. */
  ghost function Taken(s: State, name: Name): (gone: set<Name>) {
    set x | x in Names(s.graph) + {name} && Reaches(s, name, x)
  }

  ghost function Unpicked(s: State, name: Name): (s': State) {
    State(DropFrom(s.reqs, Taken(s, name)), Drop(s.graph, Taken(s, name)))
  }

  lemma {:induction false} DropTwice(graph: seq<Package>, a: set<Name>, b: set<Name>)
    ensures Drop(Drop(graph, a), b) == Drop(graph, a + b)
  {
    if graph != [] {
      var front, last := graph[..|graph| - 1], graph[|graph| - 1];
      DropTwice(front, a, b);
      DropMore(Drop(front, a), last, b);
    }
  }

  lemma {:induction false} DropFromTwice(reqs: seq<Requirement>, a: set<Name>, b: set<Name>)
    ensures DropFrom(DropFrom(reqs, a), b) == DropFrom(reqs, a + b)
  {
    if reqs != [] {
      var front, last := reqs[..|reqs| - 1], reqs[|reqs| - 1];
      DropFromTwice(front, a, b);
      DropFromMore(DropFrom(front, a), last, b);
    }
  }

  lemma {:induction false} DropOthers(graph: seq<Package>, gone: set<Name>)
    requires forall i :: 0 <= i < |graph| ==> graph[i].name !in gone
    ensures Drop(graph, gone) == graph
  {
    if graph != [] { DropOthers(graph[..|graph| - 1], gone); }
  }

  lemma {:induction false} DropFromNone(reqs: seq<Requirement>)
    ensures DropFrom(reqs, {}) == reqs
  {
    if reqs != [] { DropFromNone(reqs[..|reqs| - 1]); }
  }

  lemma ReachesItself(s: State, a: Name)
    ensures Reaches(s, a, a)
  {
    assert Chain(s, [a]);
  }

  lemma ReachesOn(s: State, a: Name, b: Name, c: Name)
    requires Reaches(s, a, b) && Link(s, b, c)
    ensures Reaches(s, a, c)
  {
    var p :| Chain(s, p) && p[0] == a && p[|p| - 1] == b;
    var q := p + [c];
    forall i | 0 <= i < |q| - 1 ensures Link(s, q[i], q[i + 1]) {
      if i < |p| - 1 { assert Link(s, p[i], p[i + 1]); }
    }
    assert Chain(s, q);
  }

  /** A set that holds the start and every link's end holds what is reached. */
  lemma {:induction false} ClosedHolds(s: State, p: seq<Name>, gone: set<Name>)
    requires Chain(s, p) && p[0] in gone
    requires forall a, b :: a in gone && Link(s, a, b) ==> b in gone
    ensures p[|p| - 1] in gone
    decreases |p|
  {
    if |p| > 1 {
      assert Link(s, p[0], p[1]);
      forall i | 0 <= i < |p[1..]| - 1 ensures Link(s, p[1..][i], p[1..][i + 1]) {
        assert Link(s, p[i + 1], p[i + 2]);
      }
      ClosedHolds(s, p[1..], gone);
    }
  }

  lemma TakenIs(s: State, name: Name, gone: set<Name>)
    requires name in gone && forall x :: x in gone ==> Reaches(s, name, x)
    requires forall a, b :: a in gone && Link(s, a, b) ==> b in gone
    requires gone <= Names(s.graph) + {name}
    ensures gone == Taken(s, name)
  {
    forall x | x in Taken(s, name) ensures x in gone {
      var p :| Chain(s, p) && p[0] == name && p[|p| - 1] == x;
      ClosedHolds(s, p, gone);
    }
  }

  /** The worklist once the first `k` requirements of `gone` have put the
      picks they are on upon it. */
  function Queue(s: State, k: nat, gone: Name, work: seq<Name>): (more: seq<Name>)
    requires k <= |s.reqs|
    decreases k
  {
    if k == 0 then work
    else
      var before, q := Queue(s, k - 1, gone, work), s.reqs[k - 1];
      if q.from == gone && q.name in Names(s.graph) then before + [q.name] else before
  }

  /** It gains the picks linked from `gone`, and nothing else. */
  lemma {:induction false} QueueGains(s: State, k: nat, gone: Name, work: seq<Name>)
    requires k <= |s.reqs|
    ensures forall x :: x in work ==> x in Queue(s, k, gone, work)
    ensures forall x :: x in Queue(s, k, gone, work) ==> x in work || Link(s, gone, x)
    ensures forall n :: 0 <= n < k && s.reqs[n].from == gone && s.reqs[n].name in Names(s.graph) ==>
              s.reqs[n].name in Queue(s, k, gone, work)
    decreases k
  {
    if k > 0 {
      QueueGains(s, k - 1, gone, work);
      var q := s.reqs[k - 1];
      if q.from == gone && q.name in Names(s.graph) { assert Link(s, gone, q.name); }
    }
  }

  /** One name of the worklist taken back. */
  ghost predicate Working(s: State, name: Name, gone: set<Name>, work: seq<Name>) {
    && gone <= Names(s.graph) + {name} && (name in gone || name in work)
    && (forall x :: x in gone || x in work ==> Reaches(s, name, x) && x in Names(s.graph) + {name})
    && (forall a, b :: a in gone && Link(s, a, b) ==> b in gone || b in work)
  }

  lemma WorkingOn(s: State, name: Name, gone: set<Name>, work: seq<Name>, one: Name, rest: seq<Name>, more: seq<Name>,
                  now: State)
    requires Working(s, name, gone, work) && work == rest + [one]
    requires now == State(DropFrom(s.reqs, gone), Drop(s.graph, gone + {one}))
    requires more == Queue(now, |now.reqs|, one, rest)
    ensures Working(s, name, gone + {one}, more)
  {
    QueueGains(now, |now.reqs|, one, rest);
    DropFromKeeps(s.reqs, gone);
    DropKeeps(s.graph, gone + {one});
    forall x | x in more ensures Reaches(s, name, x) && x in Names(s.graph) + {name} {
      if x !in rest {
        assert Link(now, one, x);
        assert Link(s, one, x);
        ReachesOn(s, name, one, x);
      }
    }
    forall a, b | a in gone + {one} && Link(s, a, b) ensures b in gone + {one} || b in more {
      if a !in gone && b !in gone + {one} {
        var q :| q in s.reqs && q.from == one && q.name == b;
        var p :| p in s.graph && p.name == b;
        assert q in now.reqs && p in now.graph;
        var n :| 0 <= n < |now.reqs| && now.reqs[n] == q;
        assert now.reqs[n].name in more;
      }
    }
  }

  lemma {:induction false} QueueLength(s: State, k: nat, gone: Name, work: seq<Name>)
    requires k <= |s.reqs|
    ensures |Queue(s, k, gone, work)| + 2 * |DropFrom(s.reqs[..k], {gone})| <= |work| + 2 * k
    decreases k
  {
    if k > 0 {
      QueueLength(s, k - 1, gone, work);
      assert s.reqs[..k] == s.reqs[..k - 1] + [s.reqs[k - 1]];
      DropFromMore(s.reqs[..k - 1], s.reqs[k - 1], {gone});
    }
  }

  /** The worklist run to its end. */
  function TakeBack(s: State, work: seq<Name>): (s': State)
    decreases |work| + 2 * |s.reqs|
  {
    if work == [] then s
    else
      var one, rest := work[|work| - 1], work[..|work| - 1];
      var now := State(s.reqs, Drop(s.graph, {one}));
      QueueLength(now, |s.reqs|, one, rest);
      assert s.reqs[..|s.reqs|] == s.reqs;
      TakeBack(State(DropFrom(s.reqs, {one}), now.graph), Queue(now, |s.reqs|, one, rest))
  }

  lemma {:induction false} TakeBackIs(s: State, name: Name, gone: set<Name>, work: seq<Name>, at: State)
    requires Working(s, name, gone, work) && at == State(DropFrom(s.reqs, gone), Drop(s.graph, gone))
    ensures TakeBack(at, work) == Unpicked(s, name)
    decreases |work| + 2 * |at.reqs|
  {
    if work == [] {
      TakenIs(s, name, gone);
    } else {
      hide Working, Unpicked, Queue, Drop, DropFrom;
      var one, rest := work[|work| - 1], work[..|work| - 1];
      DropTwice(s.graph, gone, {one});
      DropFromTwice(s.reqs, gone, {one});
      var now := State(at.reqs, Drop(at.graph, {one}));
      var more := Queue(now, |now.reqs|, one, rest);
      WorkingOn(s, name, gone, work, one, rest, more, now);
      QueueLength(now, |now.reqs|, one, rest);
      assert at.reqs[..|at.reqs|] == at.reqs;
      TakeBackIs(s, name, gone + {one}, more, State(DropFrom(at.reqs, {one}), now.graph));
    }
  }

  /** The worklist ends, cycles and all, and takes back exactly what `name`
      reaches. */
  lemma UnpickedIs(s: State, name: Name)
    ensures TakeBack(s, [name]) == Unpicked(s, name)
  {
    DropOthers(s.graph, {});
    DropFromNone(s.reqs);
    ReachesItself(s, name);
    TakeBackIs(s, name, {}, [name], s);
  }

  /** A pick that stays keeps every requirement on it. */
  lemma StayingKeepsRequirements(s: State, name: Name, q: Requirement)
    requires q in s.reqs && q.name in Names(Unpicked(s, name).graph)
    ensures q in Unpicked(s, name).reqs
  {
    DropKeeps(s.graph, Taken(s, name));
    DropFromKeeps(s.reqs, Taken(s, name));
    if q.from in Taken(s, name) {
      assert Link(s, q.from, q.name);
      ReachesOn(s, name, q.from, q.name);
    }
  }

  // ---- Requirements and picks ----

  predicate Stands(reqs: seq<Requirement>, name: Name, constraint: string, from: Name) {
    exists q :: q in reqs && q.name == name && q.constraint == constraint && q.from == from
  }

  /** A requirement is added once; others on the same package stay. */
  function With(reqs: seq<Requirement>, q: Requirement): (r: seq<Requirement>) {
    if Stands(reqs, q.name, q.constraint, q.from) then reqs else reqs + [q]
  }

  predicate SatisfiesAll(reqs: seq<Requirement>, name: Name, version: string) {
    forall q :: q in reqs && q.name == name ==> Satisfies(q.constraint, version)
  }

  function FirstOf(reqs: seq<Requirement>, name: Name, sourced: bool): (r: Option<Requirement>)
    ensures r.Some? ==> r.value in reqs && r.value.name == name
    ensures r.None? && !sourced ==> forall q :: q in reqs ==> q.name != name
  {
    if reqs == [] then None
    else if reqs[0].name == name && (!sourced || reqs[0].path != "" || reqs[0].repo != "") then Some(reqs[0])
    else FirstOf(reqs[1..], name, sourced)
  }

  /** The requirement that says where `name` comes from: any that names a path
      or a repository goes before those that name neither. */
  function SourceOf(reqs: seq<Requirement>, name: Name): (r: Option<Requirement>)
    ensures r.Some? <==> exists q :: q in reqs && q.name == name
  {
    if FirstOf(reqs, name, true).Some? then FirstOf(reqs, name, true) else FirstOf(reqs, name, false)
  }

  /** A dependency of one version; `valid` says whether its strings follow the
      grammar of their kind. */
  datatype Dep = Dep(name: Name, constraint: string, repo: string, path: string, valid: bool)

  /** One version of an index. `modules` says whether it names modules, and all
      in order. */
  datatype Entry = Entry(version: string, yanked: bool, modules: bool, deps: seq<Dep>)

  /** What a repository answers about a package. */
  datatype Index = Held(entries: seq<Entry>) | Absent | Refused

  datatype Project = Project(version: string, deps: seq<Dep>)

  datatype World = World(repositories: seq<string>, index: (string, Name) -> Index,
                         project: (string, Name) -> Option<Project>)

  /** Whether an entry of an index may be picked. */
  predicate Answers(reqs: seq<Requirement>, name: Name, e: Entry) {
    !e.yanked && SatisfiesAll(reqs, name, e.version)
  }

  /** The first place of the greatest among the first `n` that answer. */
  function Greatest(answers: seq<bool>, versions: seq<Parts>, n: nat): (best: Option<nat>)
    requires |answers| == |versions| && n <= |answers|
    ensures best.Some? ==> best.value < n
  {
    if n == 0 then None
    else
      var before := Greatest(answers, versions, n - 1);
      if !answers[n - 1] then before
      else if before.None? || Below(versions[before.value], versions[n - 1]) then Some(n - 1)
      else before
  }

  function AllAnswers(reqs: seq<Requirement>, name: Name, entries: seq<Entry>): (r: seq<bool>)
    ensures |r| == |entries| && forall i :: 0 <= i < |r| ==> r[i] == Answers(reqs, name, entries[i])
  {
    seq(|entries|, i requires 0 <= i < |entries| => Answers(reqs, name, entries[i]))
  }

  function AllVersions(entries: seq<Entry>): (r: seq<Parts>)
    ensures |r| == |entries| && forall i :: 0 <= i < |r| ==> r[i] == PartsOf(entries[i].version)
  {
    seq(|entries|, i requires 0 <= i < |entries| => PartsOf(entries[i].version))
  }

  /** The place of the highest version of an index that answers. */
  function Best(reqs: seq<Requirement>, name: Name, entries: seq<Entry>): (best: Option<nat>)
    ensures best.Some? ==> best.value < |entries|
  {
    Greatest(AllAnswers(reqs, name, entries), AllVersions(entries), |entries|)
  }

  /** No version that answers is above the one at `b`, and none that equals it
      comes first. */
  predicate AtLeast(versions: seq<Parts>, b: nat, i: nat)
    requires b < |versions| && i < |versions|
  {
    if i < b then Below(versions[i], versions[b]) else !Below(versions[b], versions[i])
  }

  lemma {:induction false} GreatestIs(answers: seq<bool>, versions: seq<Parts>, n: nat)
    requires |answers| == |versions| && n <= |answers|
    ensures match Greatest(answers, versions, n)
            case None => forall i :: 0 <= i < n ==> !answers[i]
            case Some(b) => answers[b] && forall i :: 0 <= i < n && answers[i] ==> AtLeast(versions, b, i)
  {
    if n > 0 { GreatestIs(answers, versions, n - 1); }
  }

  /** The best version answers, and is the highest that does: no version that
      answers is above it, and none that equals it comes first. */
  ghost predicate Highest(answers: seq<bool>, versions: seq<Parts>, best: Option<nat>)
    requires |answers| == |versions|
  {
    match best
    case None => forall i :: 0 <= i < |answers| ==> !answers[i]
    case Some(b) =>
      b < |answers| && answers[b] && forall i :: 0 <= i < |answers| && answers[i] ==> AtLeast(versions, b, i)
  }

  lemma BestIsHighest(reqs: seq<Requirement>, name: Name, entries: seq<Entry>)
    ensures var best := Best(reqs, name, entries);
            && Highest(AllAnswers(reqs, name, entries), AllVersions(entries), best)
            && (best.Some? ==> Answers(reqs, name, entries[best.value]))
  {
    GreatestIs(AllAnswers(reqs, name, entries), AllVersions(entries), |entries|);
  }

  predicate Row(reqs: seq<Requirement>, name: Name, entries: seq<Entry>, answers: seq<bool>, versions: seq<Parts>,
                i: nat)
    requires i < |entries| == |answers| == |versions|
  {
    answers[i] == Answers(reqs, name, entries[i]) && versions[i] == PartsOf(entries[i].version)
  }

  /** What answers and which versions, for the first `n` of an index. */
  predicate Tabled(reqs: seq<Requirement>, name: Name, entries: seq<Entry>, answers: seq<bool>, versions: seq<Parts>,
                   n: nat)
    requires n <= |entries| == |answers| == |versions|
    decreases n
  {
    n == 0 ||
    (&& Tabled(reqs, name, entries, answers, versions, n - 1)
     && Row(reqs, name, entries, answers, versions, n - 1))
  }

  lemma {:induction false} TabledAt(reqs: seq<Requirement>, name: Name, entries: seq<Entry>, answers: seq<bool>,
                                    versions: seq<Parts>, n: nat, i: nat)
    requires i < n <= |entries| == |answers| == |versions| && Tabled(reqs, name, entries, answers, versions, n)
    ensures answers[i] == Answers(reqs, name, entries[i]) && versions[i] == PartsOf(entries[i].version)
    decreases n
  {
    if i < n - 1 { TabledAt(reqs, name, entries, answers, versions, n - 1, i); }
  }

  lemma {:induction false} TabledUpTo(reqs: seq<Requirement>, name: Name, entries: seq<Entry>, answers: seq<bool>,
                                      versions: seq<Parts>, n: nat)
    requires n <= |entries| == |answers| == |versions|
    requires forall i :: 0 <= i < |entries| ==> Row(reqs, name, entries, answers, versions, i)
    ensures Tabled(reqs, name, entries, answers, versions, n)
    decreases n
  {
    if n > 0 { TabledUpTo(reqs, name, entries, answers, versions, n - 1); }
  }

  lemma AllTabled(reqs: seq<Requirement>, name: Name, entries: seq<Entry>, n: nat)
    requires n <= |entries|
    ensures Tabled(reqs, name, entries, AllAnswers(reqs, name, entries), AllVersions(entries), n)
  {
    TabledUpTo(reqs, name, entries, AllAnswers(reqs, name, entries), AllVersions(entries), n);
  }

  /** The first `n` versions of an index are versions. */
  predicate VersionsValid(entries: seq<Entry>, n: nat)
    requires n <= |entries|
  {
    n == 0 || (VersionsValid(entries, n - 1) && ValidFrom(entries[n - 1].version, 0, 3))
  }

  lemma {:induction false} FirstInvalid(entries: seq<Entry>, i: nat, n: nat)
    requires i < n <= |entries| && !ValidFrom(entries[i].version, 0, 3)
    ensures !VersionsValid(entries, n)
    decreases n
  {
    if i < n - 1 { FirstInvalid(entries, i, n - 1); }
  }

  /** Require each dependency of `from`, up to the first that is not valid. */
  function RequireAll(reqs: seq<Requirement>, deps: seq<Dep>, from: Name)
      : (r: (seq<Requirement>, bool))
    decreases |deps|
  {
    if deps == [] then (reqs, true)
    else if !deps[0].valid then (reqs, false)
    else
      var d := deps[0];
      RequireAll(With(reqs, Requirement(d.name, d.constraint, d.repo, d.path, from)), deps[1..], from)
  }

  /** What one repository makes of a requirement: the requirements after it,
      the version it holds, and whether it gave an answer. */
  datatype Answer = Answer(reqs: seq<Requirement>, version: Option<string>, ok: bool)

  function FromIndex(w: World, reqs: seq<Requirement>, name: Name, url: string): (a: Answer) {
    match w.index(url, name)
    case Absent => Answer(reqs, None, true)
    case Refused => Answer(reqs, None, false)
    case Held(entries) =>
      if !VersionsValid(entries, |entries|) then Answer(reqs, None, false)
      else
        match Best(reqs, name, entries)
        case None => Answer(reqs, None, true)
        case Some(b) =>
          if !entries[b].modules then Answer(reqs, Some(entries[b].version), false)
          else
            var (more, ok) := RequireAll(reqs, entries[b].deps, name);
            Answer(more, Some(entries[b].version), ok)
  }

  /** The repositories of the manifest in order. Two that hold the package are
      an error. */
  function FromAny(w: World, reqs: seq<Requirement>, name: Name, i: nat, winner: Option<(string, string)>)
      : (r: (seq<Requirement>, Option<(string, string)>))
    requires i <= |w.repositories|
    decreases |w.repositories| - i
  {
    if i == |w.repositories| then (reqs, winner)
    else
      var a := FromIndex(w, reqs, name, w.repositories[i]);
      if !a.ok || (a.version.Some? && winner.Some?) then (a.reqs, None)
      else
        var held := if a.version.Some? then Some((a.version.value, w.repositories[i])) else winner;
        FromAny(w, a.reqs, name, i + 1, held)
  }

  /** The pick of `name` from its source, or none. */
  function Pick(w: World, reqs: seq<Requirement>, name: Name, repo: string, path: string)
      : (r: (seq<Requirement>, Option<Package>))
  {
    if path != "" then
      match w.project(path, name)
      case None => (reqs, None)
      case Some(project) =>
        var (more, ok) := RequireAll(reqs, project.deps, name);
        (more, if ok && SatisfiesAll(more, name, project.version)
               then Some(Package(name, project.version, "", path, [])) else None)
    else if repo != "" then
      var a := FromIndex(w, reqs, name, repo);
      (a.reqs, if a.ok && a.version.Some? then Some(Package(name, a.version.value, repo, "", [])) else None)
    else
      var (more, winner) := FromAny(w, reqs, name, 0, None);
      (more, if winner.Some? then Some(Package(name, winner.value.0, winner.value.1, "", [])) else None)
  }

  /** A name with no pick yet, whose place in the graph is held. */
  function Blank(name: Name): (p: Package) {
    Package(name, "", "", "", [])
  }

  function PickOf(graph: seq<Package>, name: Name): (p: Option<Package>)
    ensures p.Some? <==> name in Names(graph)
    ensures p.Some? ==> p.value in graph && p.value.name == name
  {
    if graph == [] then None
    else if graph[0].name == name then Some(graph[0])
    else
      assert graph == [graph[0]] + graph[1..];
      PickOf(graph[1..], name)
  }

  /** The pick of `name` stands, and satisfies every constraint on it. */
  predicate Answered(s: State, name: Name) {
    PickOf(s.graph, name).Some? && SatisfiesAll(s.reqs, name, PickOf(s.graph, name).value.version)
  }

  function Cleared(s: State, name: Name): (s': State) {
    if PickOf(s.graph, name).Some? then TakeBack(s, [name]) else s
  }

  lemma PickIsNamed(w: World, reqs: seq<Requirement>, name: Name, repo: string, path: string)
    ensures var pick := Pick(w, reqs, name, repo, path).1; pick.Some? ==> pick.value.name == name
  {
  }

  /** A new pick of `name`, its old one and what hung on it taken back. */
  function Repick(w: World, s: State, name: Name, source: Requirement): (r: (State, bool)) {
    var cleared := Cleared(s, name);
    var (reqs, pick) := Pick(w, cleared.reqs, name, source.repo, source.path);
    (State(reqs, cleared.graph + [if pick.Some? then pick.value else Blank(name)]), pick.Some?)
  }

  datatype Walk = Walk(s: State, ok: bool, changed: bool)

  /** One name of a round. */
  function Visit(w: World, s: State, name: Name): (r: Walk) {
    if Answered(s, name) || SourceOf(s.reqs, name).None? then Walk(s, true, false)
    else
      var (s', ok) := Repick(w, s, name, SourceOf(s.reqs, name).value);
      Walk(s', ok, true)
  }

  function VisitAll(w: World, s: State, names: seq<Name>): (r: Walk)
    decreases |names|
  {
    if names == [] then Walk(s, true, false)
    else
      var one := Visit(w, s, names[0]);
      if !one.ok then one
      else
        var rest := VisitAll(w, one.s, names[1..]);
        rest.(changed := one.changed || rest.changed)
  }

  /** The names required when a round starts. */
  function Required(reqs: seq<Requirement>): (names: seq<Name>)
    ensures forall n :: n in names <==> exists q :: q in reqs && q.name == n
  {
    if reqs == [] then []
    else
      var front, last := Required(reqs[..|reqs| - 1]), reqs[|reqs| - 1];
      assert reqs == reqs[..|reqs| - 1] + [last];
      if last.name in front then front else front + [last.name]
  }

  function Round(w: World, s: State): (r: Walk) {
    VisitAll(w, s, Required(s.reqs))
  }

  const ROUNDS := 64

  /** Where the walk starts: the dependencies of the manifest and no pick. */
  function Start(manifest: seq<Dep>): (s: State) {
    State(RequireAll([], manifest, MANIFEST).0, [])
  }

  /** The walk, or none where it fails or does not settle. */
  function Rounds(w: World, s: State, n: nat): (r: Option<State>)
    decreases n
  {
    if n == 0 then None
    else
      var r := Round(w, s);
      if !r.ok then None else if !r.changed then Some(r.s) else Rounds(w, r.s, n - 1)
  }

  lemma RoundsUnfold(w: World, s: State, n: nat, r: Walk)
    requires n > 0 && r == Round(w, s)
    ensures Rounds(w, s, n) == if !r.ok then None else if !r.changed then Some(r.s) else Rounds(w, r.s, n - 1)
  {
  }

  lemma NoRounds(w: World, s: State)
    ensures Rounds(w, s, 0) == None
  {
  }

  /** One requirement after another passed over, or removed with the pick it
      is on put upon the worklist. */
  function Sweep(all: seq<Requirement>, graph: seq<Package>, i: nat, gone: Name, more: seq<Name>)
      : (r: (seq<Requirement>, seq<Name>))
    requires i <= |all|
    decreases |all| - i
  {
    if i == |all| then (all, more)
    else if all[i].from != gone then Sweep(all, graph, i + 1, gone, more)
    else
      Sweep(all[..i] + all[i + 1..], graph, i, gone, if all[i].name in Names(graph) then more + [all[i].name] else more)
  }

  /** The first `k` requirements swept: those kept, and the rest. */
  lemma {:induction false} SweepFrom(now: State, k: nat, gone: Name, work: seq<Name>, kept: seq<Requirement>,
                                     tail: seq<Requirement>, all: seq<Requirement>)
    requires k <= |now.reqs| && kept == DropFrom(now.reqs[..k], {gone}) && tail == now.reqs[k..] && all == kept + tail
    ensures Sweep(all, now.graph, |kept|, gone, Queue(now, k, gone, work)) ==
            (DropFrom(now.reqs, {gone}), Queue(now, |now.reqs|, gone, work))
    decreases |now.reqs| - k
  {
    if k == |now.reqs| {
      assert now.reqs[..k] == now.reqs && all == kept;
    } else {
      var q := now.reqs[k];
      SweepParts(now.reqs, k, gone, kept, tail, all);
      if q.from == gone {
        SweepFrom(now, k + 1, gone, work, kept, tail[1..], kept + tail[1..]);
      } else {
        SweepFrom(now, k + 1, gone, work, kept + [q], tail[1..], all);
      }
    }
  }

  lemma SweepParts(reqs: seq<Requirement>, k: nat, gone: Name, kept: seq<Requirement>, tail: seq<Requirement>,
                   all: seq<Requirement>)
    requires k < |reqs| && kept == DropFrom(reqs[..k], {gone}) && tail == reqs[k..] && all == kept + tail
    ensures tail[1..] == reqs[k + 1..] && all[|kept|] == reqs[k]
    ensures DropFrom(reqs[..k + 1], {gone}) == if reqs[k].from == gone then kept else kept + [reqs[k]]
    ensures all[..|kept|] + all[|kept| + 1..] == kept + tail[1..] && all == (kept + [reqs[k]]) + tail[1..]
  {
    assert reqs[..k + 1] == reqs[..k] + [reqs[k]];
    DropFromMore(reqs[..k], reqs[k], {gone});
  }

  lemma SweepIs(now: State, gone: Name, work: seq<Name>)
    ensures Sweep(now.reqs, now.graph, 0, gone, work) ==
            (DropFrom(now.reqs, {gone}), Queue(now, |now.reqs|, gone, work))
  {
    assert now.reqs[..0] == [] && [] + now.reqs == now.reqs;
    SweepFrom(now, 0, gone, work, [], now.reqs, now.reqs);
  }

  class Resolver {
    var requirements: seq<Requirement>
    var graph: seq<Package>

    ghost function S(): (s: State)
      reads this
    {
      State(requirements, graph)
    }

    method GraphPackage(name: Name) returns (at: Option<nat>)
      ensures at.Some? <==> name in Names(graph)
      ensures at.Some? ==> at.value < |graph| && graph[at.value].name == name
    {
      var i := 0;
      while i < |graph|
        invariant 0 <= i <= |graph|
        invariant forall k :: 0 <= k < i ==> graph[k].name != name
      {
        if graph[i].name == name { return Some(i); }
        i := i + 1;
      }
      at := None;
    }

    /** Remove the pick of `name`. */
    method GraphRemove(name: Name)
      requires Unique(graph)
      modifies this`graph
      ensures graph == Drop(old(graph), {name}) && Unique(graph)
    {
      var at := GraphPackage(name);
      if at.Some? {
        RemoveIsDrop(graph, at.value, name);
        graph := graph[..at.value] + graph[at.value + 1..];
      } else {
        DropOthers(graph, {name});
      }
    }

    /** Remove the requirements of `gone`, and put the picks they are on upon
        the worklist. */
    method DropRequirements(gone: Name, work: seq<Name>) returns (more: seq<Name>)
      modifies this`requirements
      ensures requirements == DropFrom(old(requirements), {gone})
      ensures more == Queue(old(S()), |old(requirements)|, gone, work)
    {
      more := work;
      var i: nat := 0;
      while i < |requirements|
        invariant i <= |requirements|
        invariant Sweep(requirements, graph, i, gone, more) == Sweep(old(requirements), graph, 0, gone, work)
        decreases |requirements| - i
      {
        i, more := SweepOne(i, gone, more);
      }
      SweepIs(old(S()), gone, work);
    }

    /** Pass over one requirement, or remove it. */
    method SweepOne(i: nat, gone: Name, more: seq<Name>) returns (next: nat, more': seq<Name>)
      requires i < |requirements|
      modifies this`requirements
      ensures var q := old(requirements[i]);
              && next == (if q.from == gone then i else i + 1)
              && requirements == (if q.from == gone then old(requirements[..i] + requirements[i + 1..])
                                  else old(requirements))
              && more' == if q.from == gone && q.name in Names(graph) then more + [q.name] else more
    {
      next, more' := i, more;
      if requirements[i].from != gone {
        next := i + 1;
      } else {
        var at := GraphPackage(requirements[i].name);
        if at.Some? { more' := more + [requirements[i].name]; }
        requirements := requirements[..i] + requirements[i + 1..];
      }
    }

    /** Take the pick of `name` back, and with it every pick it reaches. */
    method Unpick(name: Name)
      requires Unique(graph)
      modifies this
      ensures S() == Unpicked(old(S()), name) && Unique(graph)
    {
      var work := [name];
      while work != []
        invariant Unique(graph) && TakeBack(S(), work) == TakeBack(old(S()), [name])
        decreases |work| + 2 * |requirements|
      {
        var one, rest := work[|work| - 1], work[..|work| - 1];
        GraphRemove(one);
        QueueLength(S(), |requirements|, one, rest);
        assert requirements[..|requirements|] == requirements;
        work := DropRequirements(one, rest);
      }
      UnpickedIs(old(S()), name);
    }

    method Require(q: Requirement)
      modifies this`requirements
      ensures requirements == With(old(requirements), q)
    {
      var i := 0;
      while i < |requirements|
        invariant 0 <= i <= |requirements|
        invariant forall k :: 0 <= k < i ==>
                    !(requirements[k].name == q.name && requirements[k].constraint == q.constraint &&
                      requirements[k].from == q.from)
      {
        if requirements[i].name == q.name && requirements[i].constraint == q.constraint &&
           requirements[i].from == q.from {
          return;
        }
        i := i + 1;
      }
      requirements := requirements + [q];
    }

    method AllSatisfied(name: Name, version: string) returns (ok: bool)
      ensures ok <==> SatisfiesAll(requirements, name, version)
    {
      var i := 0;
      while i < |requirements|
        invariant 0 <= i <= |requirements|
        invariant forall k :: 0 <= k < i && requirements[k].name == name ==>
                    Satisfies(requirements[k].constraint, version)
      {
        if requirements[i].name == name {
          ok := DepsSatisfies(requirements[i].constraint, version);
          if !ok { return; }
        }
        i := i + 1;
      }
      ok := true;
    }

    method FindSource(name: Name) returns (source: Option<Requirement>)
      ensures source == SourceOf(requirements, name)
    {
      source := FindFirst(name, true);
      if source.None? { source := FindFirst(name, false); }
    }

    method FindFirst(name: Name, sourced: bool) returns (source: Option<Requirement>)
      ensures source == FirstOf(requirements, name, sourced)
    {
      var i := 0;
      while i < |requirements|
        invariant 0 <= i <= |requirements|
        invariant FirstOf(requirements, name, sourced) == FirstOf(requirements[i..], name, sourced)
      {
        var q := requirements[i];
        if q.name == name && (!sourced || q.path != "" || q.repo != "") { return Some(q); }
        assert requirements[i..][1..] == requirements[i + 1..];
        i := i + 1;
      }
      source := None;
    }

    /** The best version of an index; not `ok` where it names a version that is
        none. */
    method BestVersion(name: Name, entries: seq<Entry>, ghost answers: seq<bool>, ghost versions: seq<Parts>)
        returns (best: Option<nat>, ok: bool)
      requires |answers| == |versions| == |entries|
      requires Tabled(requirements, name, entries, answers, versions, |entries|)
      ensures ok <==> VersionsValid(entries, |entries|)
      ensures ok ==> best == Greatest(answers, versions, |entries|)
    {
      hide Answers, PartsOf, ValidFrom, Row;
      best := None;
      var i := 0;
      while i < |entries|
        invariant 0 <= i <= |entries| && best == Greatest(answers, versions, i)
        invariant VersionsValid(entries, i)
      {
        ok := VersionValid(entries[i].version);
        if !ok {
          FirstInvalid(entries, i, |entries|);
          return;
        }
        best := NextBest(name, entries, i, best, answers, versions);
        i := i + 1;
      }
      ok := true;
    }

    method NextBest(name: Name, entries: seq<Entry>, i: nat, best: Option<nat>, ghost answers: seq<bool>,
                    ghost versions: seq<Parts>)
        returns (next: Option<nat>)
      requires i < |entries| == |answers| == |versions| && best == Greatest(answers, versions, i)
      requires Tabled(requirements, name, entries, answers, versions, |entries|)
      ensures next == Greatest(answers, versions, i + 1)
    {
      TabledAt(requirements, name, entries, answers, versions, |entries|, i);
      if best.Some? { TabledAt(requirements, name, entries, answers, versions, |entries|, best.value); }
      next := best;
      if !entries[i].yanked {
        var satisfied := AllSatisfied(name, entries[i].version);
        if satisfied {
          var above := true;
          if best.Some? { above := IsBelow(entries[best.value].version, entries[i].version); }
          if above { next := Some(i); }
        }
      }
    }

    method RequireDependencies(deps: seq<Dep>, from: Name) returns (ok: bool)
      modifies this`requirements
      ensures (requirements, ok) == RequireAll(old(requirements), deps, from)
    {
      var i := 0;
      assert deps[0..] == deps;
      while i < |deps|
        invariant 0 <= i <= |deps|
        invariant RequireAll(old(requirements), deps, from) == RequireAll(requirements, deps[i..], from)
      {
        var d := deps[i];
        if !d.valid { return false; }
        assert deps[i..][1..] == deps[i + 1..];
        Require(Requirement(d.name, d.constraint, d.repo, d.path, from));
        i := i + 1;
      }
      ok := true;
    }

    method ResolveFromIndex(w: World, name: Name, url: string) returns (found: Option<string>, ok: bool)
      modifies this`requirements
      ensures Answer(requirements, found, ok) == FromIndex(w, old(requirements), name, url)
    {
      match w.index(url, name)
      case Absent => return None, true;
      case Refused => return None, false;
      case Held(entries) =>
        var best;
        ghost var answers, versions := AllAnswers(requirements, name, entries), AllVersions(entries);
        AllTabled(requirements, name, entries, |entries|);
        best, ok := BestVersion(name, entries, answers, versions);
        if !ok { return None, false; }
        if best.None? { return None, true; }
        found := Some(entries[best.value].version);
        if !entries[best.value].modules { return found, false; }
        ok := RequireDependencies(entries[best.value].deps, name);
    }

    method ResolveFromRepo(w: World, name: Name, named: string) returns (pick: Option<Package>)
      modifies this`requirements
      ensures (requirements, pick) == Pick(w, old(requirements), name, named, "")
    {
      hide FromIndex;
      if named != "" {
        var found, ok := ResolveFromIndex(w, name, named);
        return if ok && found.Some? then Some(Package(name, found.value, named, "", [])) else None;
      }
      var winner: Option<(string, string)> := None;
      var i := 0;
      while i < |w.repositories|
        invariant 0 <= i <= |w.repositories|
        invariant FromAny(w, old(requirements), name, 0, None) == FromAny(w, requirements, name, i, winner)
      {
        var found, ok := ResolveFromIndex(w, name, w.repositories[i]);
        if !ok { return None; }
        if found.Some? {
          if winner.Some? { return None; }
          winner := Some((found.value, w.repositories[i]));
        }
        i := i + 1;
      }
      pick := if winner.Some? then Some(Package(name, winner.value.0, winner.value.1, "", [])) else None;
    }

    method ResolveFromPath(w: World, name: Name, path: string, ghost repo: string) returns (pick: Option<Package>)
      requires path != ""
      modifies this`requirements
      ensures (requirements, pick) == Pick(w, old(requirements), name, repo, path)
    {
      var project := w.project(path, name);
      if project.None? { return None; }
      var ok := RequireDependencies(project.value.deps, name);
      if !ok { return None; }
      ok := AllSatisfied(name, project.value.version);
      pick := if ok then Some(Package(name, project.value.version, "", path, [])) else None;
    }

    /** The names required now, each once. */
    method RequiredNames() returns (names: seq<Name>)
      ensures names == Required(requirements)
    {
      names := [];
      var i := 0;
      assert requirements[..0] == [];
      while i < |requirements|
        invariant 0 <= i <= |requirements| && names == Required(requirements[..i])
      {
        var name := requirements[i].name;
        var seen := false;
        var j := 0;
        while j < |names| && !seen
          invariant 0 <= j <= |names| && (seen ==> name in names)
          invariant !seen ==> name !in names[..j]
        {
          seen := names[j] == name;
          j := j + 1;
        }
        if !seen { assert names[..j] == names; }
        assert requirements[..i + 1][..i] == requirements[..i];
        if !seen { names := names + [name]; }
        i := i + 1;
      }
      assert requirements[..i] == requirements;
    }

    /** Take the pick of `name` back where it stands. */
    method Clear(name: Name)
      requires Unique(graph)
      modifies this
      ensures S() == Cleared(old(S()), name) && Unique(graph) && name !in Names(graph)
    {
      var at := GraphPackage(name);
      if at.Some? {
        Unpick(name);
        UnpickedIs(old(S()), name);
        UnpickedLacks(old(S()), name);
      }
    }

    method PickAnew(w: World, name: Name, source: Requirement) returns (ok: bool)
      requires Unique(graph)
      modifies this
      ensures (S(), ok) == Repick(w, old(S()), name, source) && Unique(graph)
    {
      Clear(name);
      ghost var before, reqs := graph, requirements;
      graph := graph + [Blank(name)];
      var pick;
      if source.path != "" {
        pick := ResolveFromPath(w, name, source.path, source.repo);
      } else {
        pick := ResolveFromRepo(w, name, source.repo);
      }
      ok := pick.Some?;
      if ok { graph := graph[|graph| - 1 := pick.value]; }
      assert (requirements, pick) == Pick(w, reqs, name, source.repo, source.path);
      PickIsNamed(w, reqs, name, source.repo, source.path);
      assert graph == before + [if pick.Some? then pick.value else Blank(name)];
    }

    /** One round of the walk. */
    method WalkRound(w: World) returns (ok: bool, changed: bool)
      requires Unique(graph)
      modifies this
      ensures Walk(S(), ok, changed) == Round(w, old(S())) && Unique(graph)
    {
      var names := RequiredNames();
      ghost var s := S();
      ok, changed := true, false;
      var i := 0;
      assert names[0..] == names;
      while ok && i < |names|
        invariant 0 <= i <= |names| && Unique(graph) && (!ok ==> changed)
        invariant VisitAll(w, s, names) ==
                  if ok then Onward(changed, VisitAll(w, S(), names[i..])) else Walk(S(), ok, changed)
      {
        assert names[i..][1..] == names[i + 1..];
        var name := names[i];
        i := i + 1;
        var at := GraphPackage(name);
        PickOfIs(graph, name);
        if at.Some? {
          var satisfied := AllSatisfied(name, graph[at.value].version);
          if satisfied { continue; }
        }
        var req := FindSource(name);
        if req.None? { continue; }
        ok := PickAnew(w, name, req.value);
        changed := true;
      }
    }

    /** The walk from the dependencies of the manifest, round after round. */
    method Resolve(w: World, manifest: seq<Dep>) returns (ok: bool)
      requires requirements == [] && graph == [] && forall d :: d in manifest ==> d.valid
      modifies this
      ensures ok <==> Rounds(w, Start(manifest), 64).Some?
      ensures ok ==> S() == Recorded(Rounds(w, Start(manifest), 64).value)
    {
      hide Round, Rounds, Recorded;
      ok := RequireDependencies(manifest, MANIFEST);
      ghost var s := S();
      var round := 0;
      while round < ROUNDS
        invariant 0 <= round <= ROUNDS && Unique(graph)
        invariant Rounds(w, s, ROUNDS) == Rounds(w, S(), ROUNDS - round)
      {
        var changed;
        ghost var before := S();
        ok, changed := WalkRound(w);
        RoundsUnfold(w, before, ROUNDS - round, Walk(S(), ok, changed));
        if !ok { return; }
        if !changed { break; }
        round := round + 1;
      }
      if round == ROUNDS {
        NoRounds(w, S());
        return false;
      }
      RecordNeeds();
      ok := true;
    }

    /** Give every pick the packages it needs. */
    method RecordNeeds()
      modifies this`graph
      ensures S() == Recorded(old(S()))
    {
      ghost var before := graph;
      ghost var after := RecordedGraph(before, requirements);
      var i := 0;
      while i < |graph|
        invariant 0 <= i <= |graph| == |before|
        invariant forall k :: 0 <= k < i ==> graph[k] == after[k]
        invariant forall k :: i <= k < |graph| ==> graph[k] == before[k]
      {
        var p := graph[i];
        var needs := p.needs;
        var j := 0;
        assert requirements[..0] == [];
        while j < |requirements|
          invariant 0 <= j <= |requirements| && needs == NeedsFrom(p.needs, requirements[..j], p.name)
        {
          assert requirements[..j + 1][..j] == requirements[..j];
          if requirements[j].from == p.name && requirements[j].name !in needs {
            needs := needs + [requirements[j].name];
          }
          j := j + 1;
        }
        assert requirements[..j] == requirements;
        graph := graph[i := p.(needs := needs)];
        i := i + 1;
      }
      assert graph == after;
    }
  }

  function Onward(changed: bool, r: Walk): (r': Walk) {
    r.(changed := changed || r.changed)
  }

  function NeedsFrom(needs: seq<Name>, reqs: seq<Requirement>, name: Name): (r: seq<Name>) {
    if reqs == [] then needs
    else
      var front, last := NeedsFrom(needs, reqs[..|reqs| - 1], name), reqs[|reqs| - 1];
      if last.from == name && last.name !in front then front + [last.name] else front
  }

  function RecordedGraph(graph: seq<Package>, reqs: seq<Requirement>): (r: seq<Package>)
    ensures |r| == |graph|
    ensures forall i :: 0 <= i < |graph| ==> r[i] == graph[i].(needs := NeedsFrom(graph[i].needs, reqs, graph[i].name))
  {
    seq(|graph|, i requires 0 <= i < |graph| => graph[i].(needs := NeedsFrom(graph[i].needs, reqs, graph[i].name)))
  }

  function Recorded(s: State): (s': State) {
    State(s.reqs, RecordedGraph(s.graph, s.reqs))
  }

  lemma {:induction false} PickOfIs(graph: seq<Package>, name: Name)
    requires Unique(graph)
    ensures forall i :: 0 <= i < |graph| && graph[i].name == name ==> PickOf(graph, name) == Some(graph[i])
  {
    if graph != [] {
      var rest := graph[1..];
      forall i, j | 0 <= i < j < |rest| ensures rest[i].name != rest[j].name {
        assert graph[i + 1].name != graph[j + 1].name;
      }
      PickOfIs(rest, name);
      forall i | 0 <= i < |graph| && graph[i].name == name ensures PickOf(graph, name) == Some(graph[i]) {
        if i > 0 { assert rest[i - 1] == graph[i]; }
      }
    }
  }

  lemma UnpickedLacks(s: State, name: Name)
    ensures name in Taken(s, name) && name !in Names(Unpicked(s, name).graph)
  {
    ReachesItself(s, name);
    DropKeeps(s.graph, Taken(s, name));
  }

  lemma {:induction false} RemoveIsDrop(graph: seq<Package>, at: nat, name: Name)
    requires at < |graph| && graph[at].name == name
    requires forall i :: 0 <= i < |graph| && i != at ==> graph[i].name != name
    ensures Drop(graph, {name}) == graph[..at] + graph[at + 1..]
    decreases |graph|
  {
    var front, last := graph[..|graph| - 1], graph[|graph| - 1];
    if at == |graph| - 1 {
      DropOthers(front, {name});
      assert graph[..at] + graph[at + 1..] == front;
    } else {
      RemoveIsDrop(front, at, name);
      assert graph[..at] + graph[at + 1..] == (front[..at] + front[at + 1..]) + [last];
    }
  }
}
