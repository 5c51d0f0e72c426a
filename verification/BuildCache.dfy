/** The incremental build of library files: the protocol of `module_library`
    and of the module loop of `build_target` of build.c, over the keys of
    cache.c. Files are maps from a module to bytes; the compiler, the digest
    and the reader of a library header are parameters. */
module BuildCache {
  import opened Options

  type Name = string
  type Bytes = string

  /** What the build calls and does not define. */
  datatype Tools = Tools(
    /* The library file of a module, from its source, the options and the
       library files its imports reach; none for a source that does not
       compile. */
    compile: (Name, Bytes, Bytes, map<Name, Bytes>) -> Option<Bytes>,
    /* The modules a source names, and those a library file names. */
    sourceImports: Bytes -> seq<Name>,
    imports: Bytes -> seq<Name>,
    /* Whether the compiler can read a file as a library. */
    readable: Bytes -> bool,
    digest: Bytes -> Bytes)

  /** A library file names the imports of its source, and digests do not
      collide. */
  ghost predicate Sane(t: Tools) {
    && (forall m, src, options, inputs :: t.compile(m, src, options, inputs).Some? ==>
          var lib := t.compile(m, src, options, inputs).value;
          t.readable(lib) && t.imports(lib) == t.sourceImports(src))
    && (forall x, y :: t.digest(x) == t.digest(y) ==> x == y)
  }

  /** A project between two edits: its modules, importers last, with their
      sources; the options; the library files it gets from elsewhere, by name;
      and those of them that belong in the key of every module. */
  datatype Project = Project(order: seq<Name>, sources: map<Name, Bytes>, options: Bytes,
                             external: map<Name, Bytes>, graph: seq<Name>)

  predicate ValidProject(p: Project) {
    forall i :: 0 <= i < |p.order| ==> p.order[i] in p.sources
  }

  /** The key beside an output: the digest of the source with the options, and
      a line for each library file it reaches. */
  datatype Key = Key(source: Bytes, options: Bytes, lines: seq<(Name, Bytes)>)

  /** What stands in the file of a key: its whole text, or what a process that
      died inside it has left, which is the text of no key. */
  datatype Stored = Whole(key: Key) | Torn

  /** The build directory: the library files and the keys beside them. */
  datatype Disk = Disk(libs: map<Name, Bytes>, keys: map<Name, Stored>)

  const EMPTY := Disk(map[], map[])

  /** The files a search finds: lib/ of the build first. */
  function Files(p: Project, d: Disk): (files: map<Name, Bytes>) {
    p.external + d.libs
  }

  /** The modules reached from `work`, those of `seen` apart; none where a file
      is missing. */
  function Walk(t: Tools, files: map<Name, Bytes>, work: seq<Name>, seen: seq<Name>): (r: Option<seq<Name>>)
    ensures r.Some? ==> seen <= r.value && forall i :: |seen| <= i < |r.value| ==> r.value[i] in files
    decreases |files.Keys - (set n | n in seen)|, |work|
  {
    if work == [] then Some(seen)
    else if work[0] in seen then Walk(t, files, work[1..], seen)
    else if work[0] !in files then None
    else
      var n := work[0];
      SeenGrows(files, seen, n);
      Walk(t, files, work[1..] + t.imports(files[n]), seen + [n])
  }

  lemma SeenGrows(files: map<Name, Bytes>, seen: seq<Name>, n: Name)
    requires n in files && n !in seen
    ensures |files.Keys - (set k | k in seen + [n])| < |files.Keys - (set k | k in seen)|
  {
    var a, b := files.Keys - (set k | k in seen), files.Keys - (set k | k in seen + [n]);
    assert n in a && b == a - {n};
  }

  /** The library files a module with these imports reaches, itself apart. */
  function Closure(t: Tools, files: map<Name, Bytes>, m: Name, imports: seq<Name>, graph: seq<Name>)
      : (r: Option<seq<Name>>)
    ensures r.Some? ==> forall i :: 0 <= i < |r.value| ==> r.value[i] in files
  {
    match Walk(t, files, imports + graph, [m])
    case None => None
    case Some(names) => Some(names[1..])
  }

  function Lines(t: Tools, files: map<Name, Bytes>, names: seq<Name>): (lines: seq<(Name, Bytes)>)
    requires forall i :: 0 <= i < |names| ==> names[i] in files
    ensures |lines| == |names|
  {
    seq(|names|, i requires 0 <= i < |names| => (names[i], t.digest(files[names[i]])))
  }

  function Inputs(files: map<Name, Bytes>, names: seq<Name>): (inputs: map<Name, Bytes>)
    requires forall i :: 0 <= i < |names| ==> names[i] in files
  {
    map n | n in names :: files[n]
  }

  /** The key of an output with these imports, or none where one is missing. */
  function KeyOf(t: Tools, p: Project, files: map<Name, Bytes>, m: Name, imports: seq<Name>): (r: Option<Key>)
    requires m in p.sources
  {
    match Closure(t, files, m, imports, p.graph)
    case None => None
    case Some(names) => Some(Key(t.digest(p.sources[m]), p.options, Lines(t, files, names)))
  }

  // ---- What a module reaches ----

  /** Imports that lead from one of `seeds` on, past `m`. */
  ghost predicate Chain(t: Tools, files: map<Name, Bytes>, m: Name, seeds: seq<Name>, c: seq<Name>) {
    && c != [] && c[0] in seeds && m !in c
    && forall i, j :: 0 <= i < |c| && j == i + 1 < |c| ==> Imports(t, files, c[i], c[j])
  }

  ghost predicate Imports(t: Tools, files: map<Name, Bytes>, n: Name, k: Name) {
    n in files && k in t.imports(files[n])
  }

  ghost predicate Reaches(t: Tools, files: map<Name, Bytes>, m: Name, seeds: seq<Name>, n: Name) {
    exists c :: Chain(t, files, m, seeds, c) && c[|c| - 1] == n
  }

  ghost predicate Missing(t: Tools, files: map<Name, Bytes>, m: Name, seeds: seq<Name>) {
    exists n :: Reaches(t, files, m, seeds, n) && n !in files
  }

  /** What the compiler makes of a module: it reads every file the module
      reaches, and fails where one of them is missing. */
  ghost function CompileOf(t: Tools, p: Project, files: map<Name, Bytes>, m: Name): (r: Option<Bytes>)
    requires m in p.sources
  {
    var seeds := t.sourceImports(p.sources[m]) + p.graph;
    if Missing(t, files, m, seeds) then None
    else t.compile(m, p.sources[m], p.options, map n | n in files && Reaches(t, files, m, seeds, n) :: files[n])
  }

  lemma ReachesOn(t: Tools, files: map<Name, Bytes>, m: Name, seeds: seq<Name>, n: Name, k: Name)
    requires Reaches(t, files, m, seeds, n) && n in files && k in t.imports(files[n]) && k != m
    ensures Reaches(t, files, m, seeds, k)
  {
    var c :| Chain(t, files, m, seeds, c) && c[|c| - 1] == n;
    assert Chain(t, files, m, seeds, c + [k]);
  }

  /** What the imports of a seed reach, the seed reaches. */
  lemma ReachesThrough(t: Tools, files: map<Name, Bytes>, m: Name, work: seq<Name>, x: Name)
    requires work != [] && work[0] in files && work[0] != m
    requires Reaches(t, files, m, work[1..] + t.imports(files[work[0]]), x)
    ensures Reaches(t, files, m, work, x)
  {
    var more := work[1..] + t.imports(files[work[0]]);
    var c :| Chain(t, files, m, more, c) && c[|c| - 1] == x;
    if c[0] in work[1..] {
      assert Chain(t, files, m, work, c);
    } else {
      assert Chain(t, files, m, work, [work[0]] + c);
    }
  }

  lemma SeedReached(t: Tools, files: map<Name, Bytes>, m: Name, seeds: seq<Name>, n: Name)
    requires n in seeds && n != m
    ensures Reaches(t, files, m, seeds, n)
  {
    assert Chain(t, files, m, seeds, [n]);
  }

  /** The walk lists what its work reaches and nothing else, and fails only
      where that is missing. */
  lemma {:induction false} WalkReaches(t: Tools, files: map<Name, Bytes>, m: Name, work: seq<Name>, seen: seq<Name>)
    requires m in seen
    ensures var r := Walk(t, files, work, seen);
            && (r.None? ==> Missing(t, files, m, work))
            && (r.Some? ==> forall i :: |seen| <= i < |r.value| ==> Reaches(t, files, m, work, r.value[i]))
    decreases |files.Keys - (set n | n in seen)|, |work|
  {
    hide Reaches, Chain, Imports;
    if work != [] {
      var n := work[0];
      if n in seen {
        WalkReaches(t, files, m, work[1..], seen);
        FewerSeeds(t, files, m, work);
      } else if n in files {
        SeenGrows(files, seen, n);
        var more := work[1..] + t.imports(files[n]);
        WalkReaches(t, files, m, more, seen + [n]);
        SeedReached(t, files, m, work, n);
        forall x | Reaches(t, files, m, more, x) ensures Reaches(t, files, m, work, x) {
          ReachesThrough(t, files, m, work, x);
        }
      } else {
        SeedReached(t, files, m, work, n);
      }
    }
  }

  lemma FewerSeeds(t: Tools, files: map<Name, Bytes>, m: Name, work: seq<Name>)
    requires work != []
    ensures forall x :: Reaches(t, files, m, work[1..], x) ==> Reaches(t, files, m, work, x)
  {
    forall x | Reaches(t, files, m, work[1..], x) ensures Reaches(t, files, m, work, x) {
      var c :| Chain(t, files, m, work[1..], c) && c[|c| - 1] == x;
      assert Chain(t, files, m, work, c);
    }
  }

  /** The walk ends with all its work and all the imports of what it listed. */
  lemma {:induction false} WalkIsClosed(t: Tools, files: map<Name, Bytes>, work: seq<Name>, seen: seq<Name>)
    requires Walk(t, files, work, seen).Some?
    ensures var r := Walk(t, files, work, seen).value;
            && (forall n :: n in work ==> n in r)
            && (forall i, k :: |seen| <= i < |r| && k in t.imports(files[r[i]]) ==> k in r)
    decreases |files.Keys - (set n | n in seen)|, |work|
  {
    if work != [] {
      var n, r := work[0], Walk(t, files, work, seen).value;
      if n in seen {
        WalkIsClosed(t, files, work[1..], seen);
      } else {
        SeenGrows(files, seen, n);
        WalkIsClosed(t, files, work[1..] + t.imports(files[n]), seen + [n]);
        assert r[|seen|] == (seen + [n])[|seen|];
      }
      assert forall k :: k in work ==> k == n || k in work[1..];
    }
  }

  lemma {:induction false} WalkIsDistinct(t: Tools, files: map<Name, Bytes>, work: seq<Name>, seen: seq<Name>)
    requires Walk(t, files, work, seen).Some? && forall i, j :: 0 <= i < j < |seen| ==> seen[i] != seen[j]
    ensures var r := Walk(t, files, work, seen).value; forall i, j :: 0 <= i < j < |r| ==> r[i] != r[j]
    decreases |files.Keys - (set n | n in seen)|, |work|
  {
    if work != [] {
      var n := work[0];
      if n in seen {
        WalkIsDistinct(t, files, work[1..], seen);
      } else {
        SeenGrows(files, seen, n);
        WalkIsDistinct(t, files, work[1..] + t.imports(files[n]), seen + [n]);
      }
    }
  }

  lemma {:induction false} ChainListed(t: Tools, files: map<Name, Bytes>, m: Name, seeds: seq<Name>, c: seq<Name>,
                                       k: nat)
    requires Chain(t, files, m, seeds, c) && k < |c| && Walk(t, files, seeds, [m]).Some?
    ensures c[k] in Walk(t, files, seeds, [m]).value[1..]
  {
    var r := Walk(t, files, seeds, [m]).value;
    WalkIsClosed(t, files, seeds, [m]);
    if k > 0 {
      ChainListed(t, files, m, seeds, c, k - 1);
      var i :| 0 <= i < |r[1..]| && r[1..][i] == c[k - 1];
      assert r[i + 1] == c[k - 1] && Imports(t, files, c[k - 1], c[k]);
    }
    assert r == [m] + r[1..] && c[k] in r && c[k] != m;
  }

  /** The files of a key: each file that the module reaches by imports past
      itself, once; and none at all exactly where one of those is missing. */
  lemma ClosureIs(t: Tools, files: map<Name, Bytes>, m: Name, imports: seq<Name>, graph: seq<Name>)
    ensures var r := Closure(t, files, m, imports, graph);
            && (r.None? <==> Missing(t, files, m, imports + graph))
            && (r.Some? ==>
                  && (forall n :: n in r.value <==> Reaches(t, files, m, imports + graph, n))
                  && (forall i, j :: 0 <= i < j < |r.value| ==> r.value[i] != r.value[j]))
  {
    var seeds := imports + graph;
    var r := Walk(t, files, seeds, [m]);
    WalkReaches(t, files, m, seeds, [m]);
    if r.Some? {
      var names := r.value[1..];
      WalkIsDistinct(t, files, seeds, [m]);
      forall n ensures n in names <==> Reaches(t, files, m, seeds, n) {
        if n in names {
          var i :| 0 <= i < |names| && names[i] == n;
          assert r.value[i + 1] == n;
        }
        if Reaches(t, files, m, seeds, n) {
          var c :| Chain(t, files, m, seeds, c) && c[|c| - 1] == n;
          ChainListed(t, files, m, seeds, c, |c| - 1);
        }
      }
      forall i, j | 0 <= i < j < |names| ensures names[i] != names[j] {
        assert r.value[i + 1] == names[i] && r.value[j + 1] == names[j];
      }
    }
  }

  /** What the compiler reads, found by the walk. */
  function WalkedCompile(t: Tools, p: Project, files: map<Name, Bytes>, m: Name): (r: Option<Bytes>)
    requires m in p.sources
  {
    match Closure(t, files, m, t.sourceImports(p.sources[m]), p.graph)
    case None => None
    case Some(names) => t.compile(m, p.sources[m], p.options, Inputs(files, names))
  }

  lemma CompileIsWalked(t: Tools, p: Project, files: map<Name, Bytes>, m: Name)
    requires m in p.sources
    ensures CompileOf(t, p, files, m) == WalkedCompile(t, p, files, m)
  {
    var imports := t.sourceImports(p.sources[m]);
    hide Closure, Reaches, Missing;
    ClosureIs(t, files, m, imports, p.graph);
    if Closure(t, files, m, imports, p.graph).Some? {
      var names := Closure(t, files, m, imports, p.graph).value;
      assert Inputs(files, names) == map n | n in files && Reaches(t, files, m, imports + p.graph, n) :: files[n];
    }
  }

  // ---- The writes of a build ----

  /** One change of the build directory. A compile may leave anything in its
      output before it has finished, or have removed it, and a key stands torn
      before it stands whole. */
  datatype Write =
    | DropKey(m: Name)
    | Leave(m: Name, bytes: Option<Bytes>)
    | Finish(m: Name, lib: Bytes)
    | TearKey(m: Name)
    | StoreKey(m: Name, key: Key)

  function Apply(d: Disk, w: Write): (d': Disk) {
    match w
    case DropKey(m) => d.(keys := d.keys - {m})
    case Leave(m, bytes) => d.(libs := if bytes.Some? then d.libs[m := bytes.value] else d.libs - {m})
    case Finish(m, lib) => d.(libs := d.libs[m := lib])
    case TearKey(m) => d.(keys := d.keys[m := Torn])
    case StoreKey(m, key) => d.(keys := d.keys[m := Whole(key)])
  }

  function ApplyAll(d: Disk, ws: seq<Write>): (d': Disk)
    decreases |ws|
  {
    if ws == [] then d else ApplyAll(Apply(d, ws[0]), ws[1..])
  }

  /** Whether the output stands under the key this build would write. */
  predicate Holds(t: Tools, p: Project, d: Disk, m: Name)
    requires m in p.sources
  {
    && m in d.libs && t.readable(d.libs[m]) && m in d.keys
    && d.keys[m].Whole? && KeyOf(t, p, Files(p, d), m, t.imports(d.libs[m])) == Some(d.keys[m].key)
  }

  /** The writes of one module, and whether it is built after them. */
  ghost function Plan(t: Tools, p: Project, d: Disk, m: Name, junk: Option<Bytes>): (r: (bool, seq<Write>))
    requires m in p.sources
  {
    if Holds(t, p, d, m) then (true, [])
    else match CompileOf(t, p, Files(p, d), m)
      case None => (false, [DropKey(m), Leave(m, junk)])
      case Some(lib) =>
        match KeyOf(t, p, Files(p, d)[m := lib], m, t.imports(lib))
        case None => (false, [DropKey(m), Leave(m, junk), Finish(m, lib)])
        case Some(key) => (true, [DropKey(m), Leave(m, junk), Finish(m, lib), TearKey(m), StoreKey(m, key)])
  }

  datatype Outcome = Done | Failed | Crashed

  /** Build the modules from `i` on. The process dies after `stop` writes. */
  ghost function BuildFrom(t: Tools, p: Project, d: Disk, i: nat, stop: nat, junk: Name -> Option<Bytes>)
      : (r: (Disk, Outcome))
    requires ValidProject(p) && i <= |p.order|
    decreases |p.order| - i
  {
    if i == |p.order| then (d, Done)
    else
      var m := p.order[i];
      var (ok, writes) := Plan(t, p, d, m, junk(m));
      if stop < |writes| then (ApplyAll(d, writes[..stop]), Crashed)
      else if !ok then (ApplyAll(d, writes), Failed)
      else BuildFrom(t, p, ApplyAll(d, writes), i + 1, stop - |writes|, junk)
  }

  /** A project changes between builds in any way, and a build may die after
      any number of writes. */
  datatype Event = Edit(project: Project) | Build(stop: nat, junk: Name -> Option<Bytes>)

  datatype State = State(project: Project, disk: Disk)

  ghost function Step(t: Tools, s: State, e: Event): (s': State) {
    match e
    case Edit(project) => if ValidProject(project) then s.(project := project) else s
    case Build(stop, junk) =>
      if ValidProject(s.project) then s.(disk := BuildFrom(t, s.project, s.disk, 0, stop, junk).0) else s
  }

  /** The state after a history that starts with an empty build directory. */
  ghost function Run(t: Tools, p: Project, events: seq<Event>): (s: State) {
    if events == [] then State(p, EMPTY)
    else Step(t, Run(t, p, events[..|events| - 1]), events[|events| - 1])
  }

  // ---- A key speaks the truth ----

  /** The output is the compile of exactly what its key names. */
  ghost predicate Justified(t: Tools, m: Name, lib: Bytes, key: Key) {
    exists src, files, names :: Names(t, m, lib, key, src, files, names)
  }

  ghost predicate Names(t: Tools, m: Name, lib: Bytes, key: Key, src: Bytes, files: map<Name, Bytes>,
                        names: seq<Name>) {
    && (forall i :: 0 <= i < |names| ==> names[i] in files)
    && key == Key(t.digest(src), key.options, Lines(t, files, names))
    && t.compile(m, src, key.options, Inputs(files, names)) == Some(lib)
  }

  ghost predicate Truthful(t: Tools, d: Disk) {
    forall m :: m in d.keys && d.keys[m].Whole? ==> m in d.libs && Justified(t, m, d.libs[m], d.keys[m].key)
  }

  /** The walk never looks at a module it has seen. */
  lemma {:induction false} WalkIgnoresSeen(t: Tools, files: map<Name, Bytes>, m: Name, lib: Bytes,
                                           work: seq<Name>, seen: seq<Name>)
    requires m in seen
    ensures Walk(t, files[m := lib], work, seen) == Walk(t, files, work, seen)
    decreases |files.Keys - (set n | n in seen)|, |work|
  {
    if work != [] {
      var n := work[0];
      if n in seen {
        WalkIgnoresSeen(t, files, m, lib, work[1..], seen);
      } else if n in files {
        SeenGrows(files, seen, n);
        WalkIgnoresSeen(t, files, m, lib, work[1..] + t.imports(files[n]), seen + [n]);
      }
    }
  }

  /** The walk lists nothing twice. */
  lemma {:induction false} WalkOnce(t: Tools, files: map<Name, Bytes>, m: Name, work: seq<Name>, seen: seq<Name>)
    requires m in seen && Walk(t, files, work, seen).Some?
    ensures forall i :: |seen| <= i < |Walk(t, files, work, seen).value| ==>
              Walk(t, files, work, seen).value[i] != m
    decreases |files.Keys - (set n | n in seen)|, |work|
  {
    if work != [] {
      var n := work[0];
      if n in seen {
        WalkOnce(t, files, m, work[1..], seen);
      } else {
        SeenGrows(files, seen, n);
        WalkOnce(t, files, m, work[1..] + t.imports(files[n]), seen + [n]);
      }
    }
  }

  lemma ClosureApart(t: Tools, files: map<Name, Bytes>, m: Name, imports: seq<Name>, graph: seq<Name>, lib: Bytes)
    ensures Closure(t, files[m := lib], m, imports, graph) == Closure(t, files, m, imports, graph)
    ensures Closure(t, files, m, imports, graph).Some? ==> m !in Closure(t, files, m, imports, graph).value
  {
    WalkIgnoresSeen(t, files, m, lib, imports + graph, [m]);
    if Walk(t, files, imports + graph, [m]).Some? {
      WalkOnce(t, files, m, imports + graph, [m]);
    }
  }

  lemma LinesApart(t: Tools, files: map<Name, Bytes>, names: seq<Name>, m: Name, lib: Bytes)
    requires m !in names && forall i :: 0 <= i < |names| ==> names[i] in files
    ensures Lines(t, files[m := lib], names) == Lines(t, files, names)
    ensures Inputs(files[m := lib], names) == Inputs(files, names)
  {
  }

  /** A module that compiles gets a key, and the key names what it was made
      of. */
  lemma CompiledIsJustified(t: Tools, p: Project, d: Disk, m: Name)
    requires Sane(t) && m in p.sources && CompileOf(t, p, Files(p, d), m).Some?
    ensures var lib := CompileOf(t, p, Files(p, d), m).value;
            var key := KeyOf(t, p, Files(p, d)[m := lib], m, t.imports(lib));
            key.Some? && Justified(t, m, lib, key.value)
  {
    var files, src := Files(p, d), p.sources[m];
    CompileIsWalked(t, p, files, m);
    var names := Closure(t, files, m, t.sourceImports(src), p.graph).value;
    var lib := CompileOf(t, p, files, m).value;
    assert t.imports(lib) == t.sourceImports(src);
    ClosureApart(t, files, m, t.sourceImports(src), p.graph, lib);
    LinesApart(t, files, names, m, lib);
    var key := KeyOf(t, p, files[m := lib], m, t.imports(lib));
    assert Names(t, m, lib, key.value, src, files, names);
  }

  /** A key that holds was made of what stands now, so the output is what the
      compiler would make. */
  lemma HoldingIsCompile(t: Tools, p: Project, d: Disk, m: Name)
    requires Sane(t) && Truthful(t, d) && m in p.sources && Holds(t, p, d, m)
    ensures CompileOf(t, p, Files(p, d), m) == Some(d.libs[m])
  {
    var lib, key, files := d.libs[m], d.keys[m].key, Files(p, d);
    CompileIsWalked(t, p, files, m);
    var src, files0, names0 :| Names(t, m, lib, key, src, files0, names0);
    var names := Closure(t, files, m, t.imports(lib), p.graph).value;
    assert src == p.sources[m] && t.imports(lib) == t.sourceImports(src);
    SameLines(t, files0, names0, files, names);
  }

  lemma SameLines(t: Tools, files0: map<Name, Bytes>, names0: seq<Name>, files: map<Name, Bytes>, names: seq<Name>)
    requires Sane(t)
    requires forall i :: 0 <= i < |names0| ==> names0[i] in files0
    requires forall i :: 0 <= i < |names| ==> names[i] in files
    requires Lines(t, files0, names0) == Lines(t, files, names)
    ensures names0 == names && Inputs(files0, names0) == Inputs(files, names)
  {
    assert |names0| == |names|;
    forall i | 0 <= i < |names|
      ensures names0[i] == names[i] && files0[names[i]] == files[names[i]]
    {
      assert Lines(t, files0, names0)[i] == Lines(t, files, names)[i];
    }
  }

  // ---- Every write keeps the keys truthful ----

  lemma WriteKeepsTruth(t: Tools, d: Disk, w: Write)
    requires Truthful(t, d)
    requires w.Leave? || w.Finish? ==> w.m !in d.keys
    requires w.StoreKey? ==> w.m in d.libs && Justified(t, w.m, d.libs[w.m], w.key)
    ensures Truthful(t, Apply(d, w))
  {
  }

  lemma ApplyOne(d: Disk, ws: seq<Write>, k: nat)
    requires k < |ws|
    ensures ApplyAll(d, ws[..k + 1]) == Apply(ApplyAll(d, ws[..k]), ws[k])
    decreases k
  {
    if k == 0 {
      assert ws[..1][1..] == [] && ws[..0] == [];
    } else {
      assert ws[..k + 1][1..] == ws[1..][..k] && ws[..k][1..] == ws[1..][..k - 1];
      ApplyOne(Apply(d, ws[0]), ws[1..], k - 1);
    }
  }

  /** A build of one module that dies after any of its writes. */
  lemma PlanKeepsTruth(t: Tools, p: Project, d: Disk, m: Name, junk: Option<Bytes>, k: nat)
    requires Sane(t) && Truthful(t, d) && m in p.sources && k <= |Plan(t, p, d, m, junk).1|
    ensures Truthful(t, ApplyAll(d, Plan(t, p, d, m, junk).1[..k]))
    decreases k
  {
    var ws := Plan(t, p, d, m, junk).1;
    if k > 0 {
      PlanKeepsTruth(t, p, d, m, junk, k - 1);
      ApplyOne(d, ws, k - 1);
      PlanStates(t, p, d, m, junk, k - 1);
      WriteKeepsTruth(t, ApplyAll(d, ws[..k - 1]), ws[k - 1]);
    }
  }

  /** The writes of a plan, in their order. */
  lemma PlanWrites(t: Tools, p: Project, d: Disk, m: Name, junk: Option<Bytes>)
    requires m in p.sources
    ensures var (ws, made) := (Plan(t, p, d, m, junk).1, CompileOf(t, p, Files(p, d), m));
            && |ws| <= 5 && (|ws| > 0 ==> ws[0] == DropKey(m)) && (|ws| > 1 ==> ws[1] == Leave(m, junk))
            && (|ws| > 2 ==> made.Some? && ws[2] == Finish(m, made.value))
            && (|ws| > 3 ==> ws[3] == TearKey(m))
            && (|ws| > 4 ==>
                  var key := KeyOf(t, p, Files(p, d)[m := made.value], m, t.imports(made.value));
                  key.Some? && ws[4] == StoreKey(m, key.value))
  {
  }

  /** What stands before write `k` of a plan. */
  lemma PlanStates(t: Tools, p: Project, d: Disk, m: Name, junk: Option<Bytes>, k: nat)
    requires Sane(t) && m in p.sources && k < |Plan(t, p, d, m, junk).1|
    ensures var ws := Plan(t, p, d, m, junk).1;
            var d' := ApplyAll(d, ws[..k]);
            && (0 < k < 4 ==> m !in d'.keys)
            && ws[k].m == m && (ws[k].Leave? || ws[k].Finish? ==> 0 < k < 4)
            && (ws[k].StoreKey? ==> m in d'.libs && Justified(t, m, d'.libs[m], ws[k].key))
  {
    hide KeyOf, CompileOf, Justified, Plan, Names;
    var ws := Plan(t, p, d, m, junk).1;
    PlanWrites(t, p, d, m, junk);
    if k > 0 { ApplyOne(d, ws, 0); assert ws[..0] == []; }
    if k > 1 { ApplyOne(d, ws, 1); }
    if k > 2 {
      ApplyOne(d, ws, 2);
      CompiledIsJustified(t, p, d, m);
    }
    if k > 3 { ApplyOne(d, ws, 3); }
  }

  lemma {:induction false} BuildKeepsTruth(t: Tools, p: Project, d: Disk, i: nat, stop: nat,
                                           junk: Name -> Option<Bytes>)
    requires Sane(t) && Truthful(t, d) && ValidProject(p) && i <= |p.order|
    ensures Truthful(t, BuildFrom(t, p, d, i, stop, junk).0)
    decreases |p.order| - i
  {
    if i < |p.order| {
      var m := p.order[i];
      var (ok, ws) := Plan(t, p, d, m, junk(m));
      PlanKeepsTruth(t, p, d, m, junk(m), if stop < |ws| then stop else |ws|);
      assert ws[..|ws|] == ws;
      if stop >= |ws| && ok {
        BuildKeepsTruth(t, p, ApplyAll(d, ws), i + 1, stop - |ws|, junk);
      }
    }
  }

  /** After any history of edits, builds and builds cut short, a key that
      stands tells the truth about the output beside it. */
  lemma {:induction false} KeysAreTruthful(t: Tools, p: Project, events: seq<Event>)
    requires Sane(t)
    ensures Truthful(t, Run(t, p, events).disk)
    decreases |events|
  {
    if events != [] {
      var before := Run(t, p, events[..|events| - 1]);
      KeysAreTruthful(t, p, events[..|events| - 1]);
      match events[|events| - 1]
      case Edit(_) =>
      case Build(stop, junk) =>
        if ValidProject(before.project) {
          BuildKeepsTruth(t, before.project, before.disk, 0, stop, junk);
        }
    }
  }

  // ---- Incremental equals clean ----

  /** What a build from an empty directory leaves after `i` modules. */
  ghost function Clean(t: Tools, p: Project, i: nat): (libs: Option<map<Name, Bytes>>)
    requires ValidProject(p) && i <= |p.order|
  {
    if i == 0 then Some(map[])
    else match Clean(t, p, i - 1)
      case None => None
      case Some(libs) =>
        match CompileOf(t, p, p.external + libs, p.order[i - 1])
        case None => None
        case Some(lib) => Some(libs[p.order[i - 1] := lib])
  }

  /** The module is one of the first `i`. */
  ghost predicate Placed(p: Project, i: nat, n: Name)
    requires i <= |p.order|
  {
    exists j :: 0 <= j < i && p.order[j] == n
  }

  /** The modules a build may read before module `i`. */
  ghost predicate Reach(p: Project, i: nat, n: Name)
    requires i <= |p.order|
  {
    n in p.external || Placed(p, i, n)
  }

  /** No two modules have one name, no name stands for a module and a library
      file from outside, and the files from outside import one another only. */
  ghost predicate WellNamed(t: Tools, p: Project) {
    && ValidProject(p)
    && (forall i :: 0 <= i < |p.order| ==> !Placed(p, i, p.order[i]))
    && (forall i :: 0 <= i < |p.order| ==> p.order[i] !in p.external)
    && (forall m, n :: m in p.external && n in t.imports(p.external[m]) ==> n in p.external)
    && (forall n :: n in p.graph ==> n in p.external)
  }

  /** Every import names an earlier module, the module itself or a library file
      from outside. */
  ghost predicate InOrder(t: Tools, p: Project) {
    && WellNamed(t, p)
    && forall i, n :: 0 <= i < |p.order| && n in t.sourceImports(p.sources[p.order[i]]) ==>
         n == p.order[i] || Reach(p, i, n)
  }

  /** No library file left in the build directory hides one from outside. */
  ghost predicate NoShadow(p: Project, d: Disk) {
    forall n :: n in p.external ==> n !in d.libs
  }

  /** A walk sees only the modules of a closed set it starts in, so two
      directories that agree there give one walk. */
  ghost predicate AgreeOn(t: Tools, files: map<Name, Bytes>, others: map<Name, Bytes>, within: set<Name>) {
    forall n :: n in within ==>
      && n in files && n in others && files[n] == others[n]
      && (forall k :: k in t.imports(files[n]) ==> k in within)
  }

  lemma {:induction false} WalksAgree(t: Tools, files: map<Name, Bytes>, others: map<Name, Bytes>,
                                      within: set<Name>, work: seq<Name>, seen: seq<Name>)
    requires AgreeOn(t, files, others, within)
    requires forall n :: n in work ==> n in within || n in seen
    ensures Walk(t, files, work, seen) == Walk(t, others, work, seen)
    ensures Walk(t, files, work, seen).Some?
    ensures forall i :: |seen| <= i < |Walk(t, files, work, seen).value| ==>
              Walk(t, files, work, seen).value[i] in within
    decreases |files.Keys - (set n | n in seen)|, |work|
  {
    if work != [] {
      var n := work[0];
      if n in seen {
        WalksAgree(t, files, others, within, work[1..], seen);
      } else {
        SeenGrows(files, seen, n);
        WalksAgree(t, files, others, within, work[1..] + t.imports(files[n]), seen + [n]);
      }
    }
  }

  lemma CompilesAgree(t: Tools, p: Project, files: map<Name, Bytes>, others: map<Name, Bytes>,
                      within: set<Name>, m: Name)
    requires m in p.sources && AgreeOn(t, files, others, within)
    requires forall n :: n in t.sourceImports(p.sources[m]) + p.graph ==> n in within || n == m
    ensures CompileOf(t, p, files, m) == CompileOf(t, p, others, m)
  {
    var imports := t.sourceImports(p.sources[m]);
    CompileIsWalked(t, p, files, m);
    CompileIsWalked(t, p, others, m);
    WalksAgree(t, files, others, within, imports + p.graph, [m]);
    var names := Closure(t, files, m, imports, p.graph).value;
    assert Inputs(files, names) == Inputs(others, names);
  }

  ghost predicate NamesItsImports(t: Tools, p: Project, libs: map<Name, Bytes>, m: Name) {
    m in libs && m in p.sources && t.imports(libs[m]) == t.sourceImports(p.sources[m])
  }

  /** The files of the first `i` modules, each naming the imports of its
      source. */
  ghost predicate FilesOf(t: Tools, p: Project, libs: map<Name, Bytes>, i: nat)
    requires ValidProject(p) && i <= |p.order|
    decreases i
  {
    if i == 0 then libs == map[]
    else exists before, lib :: OneMore(t, p, before, lib, libs, i) && FilesOf(t, p, before, i - 1)
  }

  ghost predicate OneMore(t: Tools, p: Project, before: map<Name, Bytes>, lib: Bytes, libs: map<Name, Bytes>, i: nat)
    requires ValidProject(p) && 0 < i <= |p.order|
  {
    libs == before[p.order[i - 1] := lib] && t.imports(lib) == t.sourceImports(p.sources[p.order[i - 1]])
  }

  lemma {:induction false} FilesOfAll(t: Tools, p: Project, libs: map<Name, Bytes>, i: nat)
    requires ValidProject(p) && i <= |p.order| && FilesOf(t, p, libs, i)
    ensures forall n :: n in libs ==> Placed(p, i, n)
    ensures forall j :: 0 <= j < i ==> NamesItsImports(t, p, libs, p.order[j])
    decreases i
  {
    if i > 0 {
      var before, lib :| OneMore(t, p, before, lib, libs, i) && FilesOf(t, p, before, i - 1);
      FilesOfAll(t, p, before, i - 1);
      assert Placed(p, i, p.order[i - 1]);
      forall n | n in libs ensures Placed(p, i, n) {
        if n in before { assert Placed(p, i - 1, n); }
      }
      forall j | 0 <= j < i ensures NamesItsImports(t, p, libs, p.order[j]) {
        if j < i - 1 { assert NamesItsImports(t, p, before, p.order[j]); }
      }
    }
  }

  lemma {:induction false} CleanFiles(t: Tools, p: Project, i: nat, libs: map<Name, Bytes>)
    requires Sane(t) && ValidProject(p) && i <= |p.order| && Clean(t, p, i) == Some(libs)
    ensures FilesOf(t, p, libs, i)
    decreases i
  {
    hide OneMore;
    if i > 0 {
      var before, lib := CleanLast(t, p, i, libs);
      CleanFiles(t, p, i - 1, before);
      FilesOfMore(t, p, before, lib, libs, i);
    }
  }

  lemma FilesOfMore(t: Tools, p: Project, before: map<Name, Bytes>, lib: Bytes, libs: map<Name, Bytes>, i: nat)
    requires ValidProject(p) && 0 < i <= |p.order| && OneMore(t, p, before, lib, libs, i)
    requires FilesOf(t, p, before, i - 1)
    ensures FilesOf(t, p, libs, i)
  {
    hide OneMore;
  }

  lemma CleanLast(t: Tools, p: Project, i: nat, libs: map<Name, Bytes>)
      returns (before: map<Name, Bytes>, lib: Bytes)
    requires Sane(t) && ValidProject(p) && 0 < i <= |p.order| && Clean(t, p, i) == Some(libs)
    ensures Clean(t, p, i - 1) == Some(before)
    ensures OneMore(t, p, before, lib, libs, i)
  {
    before := Clean(t, p, i - 1).value;
    lib := CompileOf(t, p, p.external + before, p.order[i - 1]).value;
    CompileNamesImports(t, p, p.external + before, p.order[i - 1]);
  }

  lemma CompileNamesImports(t: Tools, p: Project, files: map<Name, Bytes>, m: Name)
    requires Sane(t) && m in p.sources && CompileOf(t, p, files, m).Some?
    ensures t.imports(CompileOf(t, p, files, m).value) == t.sourceImports(p.sources[m])
  {
  }

  /** The build stands where a clean build stands after `i` modules. */
  ghost predicate LikeClean(t: Tools, p: Project, d: Disk, i: nat)
    requires ValidProject(p) && i <= |p.order|
  {
    && Clean(t, p, i).Some?
    && forall n :: n in Clean(t, p, i).value ==> n in d.libs && d.libs[n] == Clean(t, p, i).value[n]
  }

  lemma LikeCleanAgrees(t: Tools, p: Project, d: Disk, i: nat)
    requires Sane(t) && InOrder(t, p) && NoShadow(p, d) && i < |p.order| && LikeClean(t, p, d, i)
    ensures CompileOf(t, p, Files(p, d), p.order[i]) == CompileOf(t, p, p.external + Clean(t, p, i).value, p.order[i])
  {
    hide CompileOf, Clean, FilesOf;
    var libs := Clean(t, p, i).value;
    var files, others := Files(p, d), p.external + libs;
    var within := p.external.Keys + libs.Keys;
    CleanFiles(t, p, i, Clean(t, p, i).value);
    FilesOfAll(t, p, Clean(t, p, i).value, i);
    forall n | n in within
      ensures n in files && n in others && files[n] == others[n]
      ensures forall k :: k in t.imports(files[n]) ==> k in within
    {
      if n !in p.external {
        assert Placed(p, i, n);
        var j :| 0 <= j < i && p.order[j] == n;
        assert NamesItsImports(t, p, libs, p.order[j]);
        forall k | k in t.imports(files[n]) ensures k in within {
          assert k == p.order[j] || Reach(p, j, k);
        }
      }
    }
    forall n | n in t.sourceImports(p.sources[p.order[i]]) + p.graph && n != p.order[i] ensures n in within {
      if n in t.sourceImports(p.sources[p.order[i]]) { assert Reach(p, i, n); }
    }
    CompilesAgree(t, p, files, others, within, p.order[i]);
  }

  lemma CleanFails(t: Tools, p: Project, i: nat, n: nat)
    requires ValidProject(p) && i <= n <= |p.order| && Clean(t, p, i).None?
    ensures Clean(t, p, n).None?
    decreases n
  {
    hide CompileOf;
    if i < n { CleanFails(t, p, i, n - 1); }
  }

  /** The plan of one module, carried out: the outputs of other modules stay,
      and the module's own is what the compiler makes now. */
  lemma PlanBuilds(t: Tools, p: Project, d: Disk, m: Name, junk: Option<Bytes>)
    requires Sane(t) && Truthful(t, d) && m in p.sources
    ensures var (ok, ws) := Plan(t, p, d, m, junk);
            && (ok <==> CompileOf(t, p, Files(p, d), m).Some?)
            && (ok ==> ApplyAll(d, ws).libs == d.libs[m := CompileOf(t, p, Files(p, d), m).value])
  {
    var (ok, ws) := Plan(t, p, d, m, junk);
    if Holds(t, p, d, m) {
      HoldingIsCompile(t, p, d, m);
      assert d.libs[m := d.libs[m]] == d.libs;
    } else if CompileOf(t, p, Files(p, d), m).Some? {
      CompiledIsJustified(t, p, d, m);
      var lib := CompileOf(t, p, Files(p, d), m).value;
      var key := KeyOf(t, p, Files(p, d)[m := lib], m, t.imports(lib)).value;
      FiveWrites(d, m, junk, lib, key);
    }
  }

  lemma FiveWrites(d: Disk, m: Name, junk: Option<Bytes>, lib: Bytes, key: Key)
    ensures var ws := [DropKey(m), Leave(m, junk), Finish(m, lib), TearKey(m), StoreKey(m, key)];
            && ApplyAll(d, ws).libs == d.libs[m := lib]
            && ApplyAll(d, ws).keys == d.keys[m := Whole(key)]
  {
    var ws := [DropKey(m), Leave(m, junk), Finish(m, lib), TearKey(m), StoreKey(m, key)];
    var made := [DropKey(m), Leave(m, junk), Finish(m, lib)];
    assert ws == made + [TearKey(m), StoreKey(m, key)];
    WritesSplit(d, made, [TearKey(m), StoreKey(m, key)]);
    KeyWritten(ApplyAll(d, made), m, key);
    assert made == [DropKey(m)] + ([Leave(m, junk)] + [Finish(m, lib)]);
    CompiledFiles(d, m, junk, lib);
  }

  lemma KeyWritten(d: Disk, m: Name, key: Key)
    ensures ApplyAll(d, [TearKey(m), StoreKey(m, key)]) == d.(keys := d.keys[m := Whole(key)])
  {
    assert [TearKey(m), StoreKey(m, key)] == [TearKey(m)] + [StoreKey(m, key)];
    WritesSplit(d, [TearKey(m)], [StoreKey(m, key)]);
    OneWrite(d, TearKey(m));
    OneWrite(Apply(d, TearKey(m)), StoreKey(m, key));
  }

  lemma ModuleKeepsTruth(t: Tools, p: Project, d: Disk, m: Name, junk: Option<Bytes>)
    requires Sane(t) && Truthful(t, d) && m in p.sources
    ensures Truthful(t, ApplyAll(d, Plan(t, p, d, m, junk).1))
  {
    var ws := Plan(t, p, d, m, junk).1;
    PlanKeepsTruth(t, p, d, m, junk, |ws|);
    assert ws[..|ws|] == ws;
  }

  lemma ModuleSucceeds(t: Tools, p: Project, d: Disk, i: nat, junk: Option<Bytes>, writes: seq<Write>)
    requires Sane(t) && Truthful(t, d) && InOrder(t, p) && NoShadow(p, d)
    requires i < |p.order| && LikeClean(t, p, d, i) && Plan(t, p, d, p.order[i], junk) == (true, writes)
    ensures LikeClean(t, p, ApplyAll(d, writes), i + 1) && NoShadow(p, ApplyAll(d, writes))
  {
    PlanBuilds(t, p, d, p.order[i], junk);
    LikeCleanAgrees(t, p, d, i);
    OneMoreLikeClean(t, p, d, i, ApplyAll(d, writes));
  }

  lemma ModuleFails(t: Tools, p: Project, d: Disk, i: nat, junk: Option<Bytes>, writes: seq<Write>)
    requires Sane(t) && Truthful(t, d) && InOrder(t, p) && NoShadow(p, d)
    requires i < |p.order| && LikeClean(t, p, d, i) && Plan(t, p, d, p.order[i], junk) == (false, writes)
    ensures Clean(t, p, |p.order|).None?
  {
    PlanBuilds(t, p, d, p.order[i], junk);
    LikeCleanAgrees(t, p, d, i);
    assert Clean(t, p, i + 1).None?;
    CleanFails(t, p, i + 1, |p.order|);
  }

  ghost predicate EndsClean(t: Tools, p: Project, end: (Disk, Outcome))
    requires ValidProject(p)
  {
    && (end.1.Done? ==> LikeClean(t, p, end.0, |p.order|))
    && (end.1.Failed? ==> Clean(t, p, |p.order|).None?)
  }

  lemma BuildUnfolds(t: Tools, p: Project, d: Disk, i: nat, stop: nat, junk: Name -> Option<Bytes>)
    requires ValidProject(p) && i <= |p.order|
    ensures i == |p.order| ==> BuildFrom(t, p, d, i, stop, junk) == (d, Done)
    ensures i < |p.order| ==>
              var (ok, ws) := Plan(t, p, d, p.order[i], junk(p.order[i]));
              && (stop < |ws| ==> BuildFrom(t, p, d, i, stop, junk).1 == Crashed)
              && (stop >= |ws| && !ok ==> BuildFrom(t, p, d, i, stop, junk).1 == Failed)
              && (stop >= |ws| && ok ==> BuildFrom(t, p, d, i, stop, junk) ==
                                         BuildFrom(t, p, ApplyAll(d, ws), i + 1, stop - |ws|, junk))
  {
  }

  /** From any truthful directory, a build that is not cut short succeeds
      exactly when a clean one does, with the same library files. */
  lemma {:induction false} BuildIsClean(t: Tools, p: Project, d: Disk, i: nat, stop: nat, junk: Name -> Option<Bytes>)
    requires Sane(t) && Truthful(t, d) && InOrder(t, p) && NoShadow(p, d)
    requires i <= |p.order| && LikeClean(t, p, d, i)
    ensures EndsClean(t, p, BuildFrom(t, p, d, i, stop, junk))
    decreases |p.order| - i
  {
    BuildUnfolds(t, p, d, i, stop, junk);
    if i < |p.order| {
      var m := p.order[i];
      var (ok, ws) := Plan(t, p, d, m, junk(m));
      if stop >= |ws| {
        if ok {
          ModuleKeepsTruth(t, p, d, m, junk(m));
          ModuleSucceeds(t, p, d, i, junk(m), ws);
          BuildIsClean(t, p, ApplyAll(d, ws), i + 1, stop - |ws|, junk);
        } else {
          ModuleFails(t, p, d, i, junk(m), ws);
        }
      }
    }
  }

  lemma OneMoreLikeClean(t: Tools, p: Project, d: Disk, i: nat, d': Disk)
    requires Sane(t) && InOrder(t, p) && NoShadow(p, d) && i < |p.order| && LikeClean(t, p, d, i)
    requires CompileOf(t, p, p.external + Clean(t, p, i).value, p.order[i]).Some?
    requires d'.libs == d.libs[p.order[i] := CompileOf(t, p, p.external + Clean(t, p, i).value, p.order[i]).value]
    ensures LikeClean(t, p, d', i + 1) && NoShadow(p, d')
  {
    hide CompileOf, FilesOf, NamesItsImports;
    CleanFiles(t, p, i, Clean(t, p, i).value);
    FilesOfAll(t, p, Clean(t, p, i).value, i);
  }

  lemma CleanPlaces(t: Tools, p: Project)
    requires Sane(t) && ValidProject(p) && Clean(t, p, |p.order|).Some?
    ensures forall j :: 0 <= j < |p.order| ==> p.order[j] in Clean(t, p, |p.order|).value
  {
    var libs := Clean(t, p, |p.order|).value;
    CleanFiles(t, p, |p.order|, libs);
    FilesOfAll(t, p, libs, |p.order|);
    forall j | 0 <= j < |p.order| ensures p.order[j] in libs {
      assert NamesItsImports(t, p, libs, p.order[j]);
    }
  }

  /** Incremental equals clean: after any history of edits, builds and builds
      cut short, a build that runs to its end succeeds exactly when a build
      from an empty directory does, and leaves the same bytes in every library
      file of the project. */
  lemma IncrementalEqualsClean(t: Tools, start: Project, events: seq<Event>, stop: nat, junk: Name -> Option<Bytes>,
                               cleanStop: nat, cleanJunk: Name -> Option<Bytes>)
    requires Sane(t)
    requires var s := Run(t, start, events); InOrder(t, s.project) && NoShadow(s.project, s.disk)
    ensures var s := Run(t, start, events);
            var (d, outcome) := BuildFrom(t, s.project, s.disk, 0, stop, junk);
            var (clean, cleanOutcome) := BuildFrom(t, s.project, EMPTY, 0, cleanStop, cleanJunk);
            !outcome.Crashed? && !cleanOutcome.Crashed? ==>
              && outcome == cleanOutcome
              && (outcome.Done? ==> forall i :: 0 <= i < |s.project.order| ==>
                    var m := s.project.order[i];
                    m in d.libs && m in clean.libs && d.libs[m] == clean.libs[m])
  {
    var s := Run(t, start, events);
    var p := s.project;
    KeysAreTruthful(t, start, events);
    BuildIsClean(t, p, s.disk, 0, stop, junk);
    BuildIsClean(t, p, EMPTY, 0, cleanStop, cleanJunk);
    if Clean(t, p, |p.order|).Some? { CleanPlaces(t, p); }
  }

  // ---- A clean build needs its imports in order ----

  lemma {:induction false} MissingFile(t: Tools, files: map<Name, Bytes>, work: seq<Name>, seen: seq<Name>, n: Name)
    requires n in work && n !in files && n !in seen
    ensures Walk(t, files, work, seen).None?
    decreases |files.Keys - (set k | k in seen)|, |work|
  {
    assert work == [work[0]] + work[1..];
    if work[0] in seen {
      MissingFile(t, files, work[1..], seen, n);
    } else if work[0] in files {
      SeenGrows(files, seen, work[0]);
      MissingFile(t, files, work[1..] + t.imports(files[work[0]]), seen + [work[0]], n);
    }
  }

  lemma MissingImport(t: Tools, p: Project, files: map<Name, Bytes>, m: Name, n: Name)
    requires m in p.sources && n in t.sourceImports(p.sources[m]) && n != m && n !in files
    ensures CompileOf(t, p, files, m).None?
  {
    CompileIsWalked(t, p, files, m);
    MissingFile(t, files, t.sourceImports(p.sources[m]) + p.graph, [m], n);
  }

  /** What the build directory holds, the build has put there. */
  ghost predicate OnlyPlaced(p: Project, d: Disk, i: nat)
    requires i <= |p.order|
  {
    forall n :: n in d.libs ==> Placed(p, i, n)
  }

  lemma {:induction false} BuildNeedsImport(t: Tools, p: Project, d: Disk, i: nat, stop: nat,
                                            junk: Name -> Option<Bytes>, j: nat, n: Name)
    requires Sane(t) && Truthful(t, d) && ValidProject(p) && i <= j < |p.order| && OnlyPlaced(p, d, i)
    requires n in t.sourceImports(p.sources[p.order[j]]) && n != p.order[j] && !Reach(p, j, n)
    ensures !BuildFrom(t, p, d, i, stop, junk).1.Done?
    decreases j - i
  {
    hide CompileOf, Plan, BuildFrom, Truthful;
    var m := p.order[i];
    var (ok, ws) := Plan(t, p, d, m, junk(m));
    PlanBuilds(t, p, d, m, junk(m));
    BuildUnfolds(t, p, d, i, stop, junk);
    if i == j {
      assert n !in Files(p, d);
      MissingImport(t, p, Files(p, d), m, n);
    } else if ok && stop >= |ws| {
      var d' := ApplyAll(d, ws);
      ModuleKeepsTruth(t, p, d, m, junk(m));
      forall k | k in d'.libs ensures Placed(p, i + 1, k) {
        if k != m {
          var l :| 0 <= l < i && p.order[l] == k;
        }
      }
      BuildNeedsImport(t, p, d', i + 1, stop - |ws|, junk, j, n);
    }
  }

  /** A build from an empty directory never succeeds where a module imports
      what is neither an earlier module nor a library file from outside. */
  lemma CleanNeedsImports(t: Tools, p: Project, stop: nat, junk: Name -> Option<Bytes>, j: nat, n: Name)
    requires Sane(t) && ValidProject(p) && j < |p.order|
    requires n in t.sourceImports(p.sources[p.order[j]]) && n != p.order[j] && !Reach(p, j, n)
    ensures !BuildFrom(t, p, EMPTY, 0, stop, junk).1.Done?
  {
    BuildNeedsImport(t, p, EMPTY, 0, stop, junk, j, n);
  }

  /** A project that builds from an empty directory has its imports in
      order. */
  lemma CleanIsInOrder(t: Tools, p: Project, stop: nat, junk: Name -> Option<Bytes>)
    requires Sane(t) && WellNamed(t, p) && BuildFrom(t, p, EMPTY, 0, stop, junk).1.Done?
    ensures InOrder(t, p)
  {
    forall i, n | 0 <= i < |p.order| && n in t.sourceImports(p.sources[p.order[i]])
      ensures n == p.order[i] || Reach(p, i, n)
    {
      if n != p.order[i] && !Reach(p, i, n) { CleanNeedsImports(t, p, stop, junk, i, n); }
    }
  }

  /** Where a build from an empty directory succeeds, a build after any history
      that runs to its end succeeds too, with the same bytes in every library
      file of the project, however its modules import one another. */
  lemma IncrementalAfterClean(t: Tools, start: Project, events: seq<Event>, stop: nat, junk: Name -> Option<Bytes>,
                              cleanStop: nat, cleanJunk: Name -> Option<Bytes>)
    requires Sane(t)
    requires var s := Run(t, start, events);
             && WellNamed(t, s.project) && NoShadow(s.project, s.disk)
             && BuildFrom(t, s.project, EMPTY, 0, cleanStop, cleanJunk).1.Done?
    ensures var s := Run(t, start, events);
            var (d, outcome) := BuildFrom(t, s.project, s.disk, 0, stop, junk);
            var clean := BuildFrom(t, s.project, EMPTY, 0, cleanStop, cleanJunk).0;
            !outcome.Crashed? ==>
              && outcome.Done?
              && forall i :: 0 <= i < |s.project.order| ==>
                   var m := s.project.order[i];
                   m in d.libs && m in clean.libs && d.libs[m] == clean.libs[m]
  {
    CleanIsInOrder(t, Run(t, start, events).project, cleanStop, cleanJunk);
    IncrementalEqualsClean(t, start, events, stop, junk, cleanStop, cleanJunk);
  }

  // ---- The build directory, changed in place ----

  /** The writes of a module from the second on are those of its compile. */
  lemma WritesSplit(d: Disk, ws: seq<Write>, more: seq<Write>)
    ensures ApplyAll(d, ws + more) == ApplyAll(ApplyAll(d, ws), more)
    decreases |ws|
  {
    if ws == [] {
      assert ws + more == more;
    } else {
      assert (ws + more)[1..] == ws[1..] + more;
      WritesSplit(Apply(d, ws[0]), ws[1..], more);
    }
  }

  /** The process carries out `writes`, or dies on the way. */
  ghost predicate Carried(d: Disk, left: nat, writes: seq<Write>, d': Disk, left': nat, alive: bool) {
    && (alive <==> left >= |writes|)
    && (alive ==> d' == ApplyAll(d, writes) && left' == left - |writes|)
    && (!alive ==> left < |writes| && d' == ApplyAll(d, writes[..left]))
  }

  lemma CarriedOn(d: Disk, left: nat, ws: seq<Write>, d1: Disk, left1: nat, more: seq<Write>, d2: Disk, left2: nat,
                  alive: bool)
    requires Carried(d, left, ws, d1, left1, true) && Carried(d1, left1, more, d2, left2, alive)
    ensures Carried(d, left, ws + more, d2, left2, alive)
  {
    WritesSplit(d, ws, more);
    if !alive {
      WritesSplit(d, ws, more[..left1]);
      assert (ws + more)[..left] == ws + more[..left1];
    }
  }

  lemma CarriedNot(d: Disk, left: nat, ws: seq<Write>, d1: Disk, left1: nat, more: seq<Write>)
    requires Carried(d, left, ws, d1, left1, false)
    ensures Carried(d, left, ws + more, d1, left1, false)
  {
    assert (ws + more)[..left] == ws[..left];
  }

  /** A line for each file reached, with the digest of what stands there. */
  ghost predicate NamesReached(t: Tools, files: map<Name, Bytes>, m: Name, seeds: seq<Name>,
                               lines: seq<(Name, Bytes)>) {
    && (forall n, h :: (n, h) in lines <==> n in files && Reaches(t, files, m, seeds, n) && h == t.digest(files[n]))
    && forall i, j :: 0 <= i < j < |lines| ==> lines[i].0 != lines[j].0
  }

  lemma LinesNameReached(t: Tools, files: map<Name, Bytes>, m: Name, imports: seq<Name>, graph: seq<Name>)
    ensures var r := Closure(t, files, m, imports, graph);
            && (r.None? <==> Missing(t, files, m, imports + graph))
            && (r.Some? ==> NamesReached(t, files, m, imports + graph, Lines(t, files, r.value)))
  {
    hide Reaches, Missing;
    ClosureIs(t, files, m, imports, graph);
    var r := Closure(t, files, m, imports, graph);
    if r.Some? {
      var names, lines := r.value, Lines(t, files, r.value);
      forall n, h
        ensures (n, h) in lines <==> n in files && Reaches(t, files, m, imports + graph, n) && h == t.digest(files[n])
      {
        if (n, h) in lines { var i :| 0 <= i < |lines| && lines[i] == (n, h); assert names[i] == n; }
        if n in names && n in files && h == t.digest(files[n]) {
          var i :| 0 <= i < |names| && names[i] == n;
          assert lines[i] == (n, h);
        }
      }
    }
  }

  class BuildDir {
    var libs: map<Name, Bytes>
    var keys: map<Name, Stored>
    /** The writes the process has left to live. */
    var left: nat

    constructor (left: nat)
      ensures D() == EMPTY && this.left == left
    {
      this.libs, this.keys, this.left := map[], map[], left;
    }

    ghost function D(): (d: Disk)
      reads this
    {
      Disk(libs, keys)
    }

    function Search(p: Project): (files: map<Name, Bytes>)
      reads this
      ensures files == Files(p, D())
    {
      p.external + libs
    }

    /** A line for each file reached, the module itself apart. */
    method KeyLines(t: Tools, files: map<Name, Bytes>, m: Name, reached: seq<Name>)
        returns (out: seq<(Name, Bytes)>)
      requires reached != [] && reached[0] == m
      requires forall i :: 0 < i < |reached| ==> reached[i] != m && reached[i] in files
      ensures out == Lines(t, files, reached[1..])
    {
      ghost var names := reached[1..];
      out := [];
      var i := 0;
      while i < |reached|
        invariant 0 <= i <= |reached|
        invariant out == if i == 0 then [] else Lines(t, files, names)[..i - 1]
      {
        if reached[i] != m { out := out + [(reached[i], t.digest(files[reached[i]]))]; }
        i := i + 1;
      }
      assert Lines(t, files, names)[..|names|] == Lines(t, files, names);
    }

    /** The digests of the library files the module reaches, itself apart. */
    method ImportsKey(t: Tools, p: Project, m: Name) returns (lines: Option<seq<(Name, Bytes)>>)
      requires m in libs
      ensures lines == match Closure(t, Files(p, D()), m, t.imports(libs[m]), p.graph)
                       case None => None
                       case Some(names) => Some(Lines(t, Files(p, D()), names))
      ensures var (files, seeds) := (Files(p, D()), t.imports(libs[m]) + p.graph);
              && (lines.None? <==> Missing(t, files, m, seeds))
              && (lines.Some? ==> NamesReached(t, files, m, seeds, lines.value))
    {
      var files := Search(p);
      LinesNameReached(t, files, m, t.imports(libs[m]), p.graph);
      var reached := Walk(t, files, t.imports(libs[m]) + p.graph, [m]);
      if reached.None? { return None; }
      WalkOnce(t, files, m, t.imports(libs[m]) + p.graph, [m]);
      var out := KeyLines(t, files, m, reached.value);
      lines := Some(out);
    }

    method CacheHolds(m: Name, key: Key) returns (same: bool)
      ensures same <==> m in libs && m in keys && keys[m] == Whole(key)
    {
      same := m in libs && m in keys;
      if same { same := keys[m] == Whole(key); }
    }

    method CacheDrop(m: Name) returns (alive: bool)
      modifies this
      ensures Carried(old(D()), old(left), [DropKey(m)], D(), left, alive)
    {
      alive := left > 0;
      if alive { keys, left := keys - {m}, left - 1; }
    }

    /** The file is there before its text is. */
    method CacheStore(m: Name, key: Key) returns (alive: bool)
      modifies this
      ensures Carried(old(D()), old(left), KeyWrites(m, Some(key)), D(), left, alive)
    {
      ghost var d, n := D(), left;
      alive := left > 0;
      assert [TearKey(m), StoreKey(m, key)][..0] == [];
      if !alive { return; }
      keys, left := keys[m := Torn], left - 1;
      OneWrite(d, TearKey(m));
      ghost var d1, n1 := D(), left;
      alive := left > 0;
      if alive { keys, left := keys[m := Whole(key)], left - 1; }
      OneWrite(d1, StoreKey(m, key));
      CarriedOn(d, n, [TearKey(m)], d1, n1, [StoreKey(m, key)], D(), left, alive);
    }

    /** The compiler writes its output in more than one step. */
    method DriverRun(t: Tools, p: Project, m: Name, junk: Option<Bytes>) returns (ok: bool, alive: bool)
      requires m in p.sources
      modifies this
      ensures var r := CompileOf(t, p, Files(p, old(D())), m);
              && (ok <==> r.Some?)
              && Carried(old(D()), old(left), CompileWrites(m, junk, r), D(), left, alive)
    {
      var r := WalkedCompile(t, p, Search(p), m);
      CompileIsWalked(t, p, Search(p), m);
      ok, alive := r.Some?, left > 0;
      ghost var d, n, ws := D(), left, CompileWrites(m, junk, r);
      assert ws[..0] == [];
      if !alive { return; }
      libs, left := if junk.Some? then libs[m := junk.value] else libs - {m}, left - 1;
      assert Carried(d, n, [Leave(m, junk)], D(), left, true) by { OneWrite(d, Leave(m, junk)); }
      if ok {
        ghost var d1, n1 := D(), left;
        alive := left > 0;
        if alive { libs, left := libs[m := r.value], left - 1; }
        OneWrite(d1, Finish(m, r.value));
        CarriedOn(d, n, [Leave(m, junk)], d1, n1, [Finish(m, r.value)], D(), left, alive);
      }
    }

    /** Bring the library file of one module up to date. */
    method ModuleLibrary(t: Tools, p: Project, m: Name, junk: Option<Bytes>) returns (ok: bool, alive: bool)
      requires m in p.sources
      modifies this
      ensures var (built, writes) := Plan(t, p, old(D()), m, junk);
              && Carried(old(D()), old(left), writes, D(), left, alive)
              && (alive ==> ok == built)
    {
      ghost var d, n := D(), left;
      var source := t.digest(p.sources[m]);
      if m in libs && t.readable(libs[m]) {
        var lines := ImportsKey(t, p, m);
        if lines.Some? {
          var held := CacheHolds(m, Key(source, p.options, lines.value));
          if held { return true, true; }
        }
      }
      assert !Holds(t, p, d, m);
      ghost var r := CompileOf(t, p, Files(p, d), m);
      ghost var key := if r.None? then None else KeyOf(t, p, Files(p, d)[m := r.value], m, t.imports(r.value));
      PlanParts(t, p, d, m, junk, r, key);
      ok, alive := Rebuild(t, p, m, source, junk, r, key);
    }

    /** The key of the output that stands, from the imports it names. */
    method WriteKey(t: Tools, p: Project, m: Name, source: Bytes, ghost key: Option<Key>)
        returns (ok: bool, alive: bool)
      requires m in p.sources && source == t.digest(p.sources[m]) && m in libs
      requires key == KeyOf(t, p, Files(p, D()), m, t.imports(libs[m]))
      modifies this
      ensures Carried(old(D()), old(left), KeyWrites(m, key), D(), left, alive)
      ensures alive ==> (ok <==> key.Some?)
    {
      var lines := ImportsKey(t, p, m);
      if lines.None? {
        assert KeyWrites(m, key)[..0] == [];
        return false, true;
      }
      alive := CacheStore(m, Key(source, p.options, lines.value));
      ok := true;
    }

    /** Drop the old key, compile, and write the new key last. */
    method Rebuild(t: Tools, p: Project, m: Name, source: Bytes, junk: Option<Bytes>,
                   ghost r: Option<Bytes>, ghost key: Option<Key>)
        returns (ok: bool, alive: bool)
      requires m in p.sources && source == t.digest(p.sources[m]) && r == CompileOf(t, p, Files(p, D()), m)
      requires key == if r.None? then None else KeyOf(t, p, Files(p, D())[m := r.value], m, t.imports(r.value))
      modifies this
      ensures Carried(old(D()), old(left), [DropKey(m)] + (CompileWrites(m, junk, r) + KeyWrites(m, key)), D(), left,
                      alive)
      ensures alive ==> (ok <==> key.Some?)
    {
      hide KeyOf, CompileOf, ApplyAll, CompileWrites, KeyWrites, Carried;
      ghost var d, n := D(), left;
      ghost var compiling, storing := CompileWrites(m, junk, r), KeyWrites(m, key);
      ok := false;
      alive := CacheDrop(m);
      if !alive { CarriedNot(d, n, [DropKey(m)], D(), left, compiling + storing); return; }
      ghost var d1, n1 := D(), left;
      OneWrite(d, DropKey(m));
      assert Files(p, d1) == Files(p, d);
      ok, alive := DriverRun(t, p, m, junk);
      if !alive {
        CarriedNot(d1, n1, compiling, D(), left, storing);
        CarriedOn(d, n, [DropKey(m)], d1, n1, compiling + storing, D(), left, false);
        return;
      }
      CarriedOn(d, n, [DropKey(m)], d1, n1, compiling, D(), left, true);
      assert [DropKey(m)] + (compiling + storing) == [DropKey(m)] + compiling + storing;
      if !ok {
        NoKeyWritten(m);
        assert [DropKey(m)] + compiling + [] == [DropKey(m)] + compiling;
        return;
      }
      ghost var d2, n2 := D(), left;
      CompiledFiles(d, m, junk, r.value);
      FilesAfter(p, d, d2, m, r.value);
      ok, alive := WriteKey(t, p, m, source, key);
      CarriedOn(d, n, [DropKey(m)] + compiling, d2, n2, storing, D(), left, alive);
    }

    /** Every library file of the project, in the order of the imports. The
        process may die on the way. */
    method BuildTarget(t: Tools, p: Project, junk: Name -> Option<Bytes>) returns (outcome: Outcome)
      requires ValidProject(p)
      modifies this
      ensures (D(), outcome) == BuildFrom(t, p, old(D()), 0, old(left), junk)
    {
      var i := 0;
      while i < |p.order|
        invariant 0 <= i <= |p.order|
        invariant BuildFrom(t, p, old(D()), 0, old(left), junk) == BuildFrom(t, p, D(), i, left, junk)
      {
        var ok, alive := ModuleLibrary(t, p, p.order[i], junk(p.order[i]));
        if !alive { return Crashed; }
        if !ok { return Failed; }
        i := i + 1;
      }
      outcome := Done;
    }
  }

  lemma PlanParts(t: Tools, p: Project, d: Disk, m: Name, junk: Option<Bytes>, r: Option<Bytes>, key: Option<Key>)
    requires m in p.sources && !Holds(t, p, d, m) && r == CompileOf(t, p, Files(p, d), m)
    requires key == if r.None? then None else KeyOf(t, p, Files(p, d)[m := r.value], m, t.imports(r.value))
    ensures Plan(t, p, d, m, junk) ==
            (key.Some?, [DropKey(m)] + (CompileWrites(m, junk, r) + KeyWrites(m, key)))
  {
    if key.Some? {
      assert [DropKey(m)] + (CompileWrites(m, junk, r) + [TearKey(m), StoreKey(m, key.value)]) ==
             [DropKey(m), Leave(m, junk), Finish(m, r.value), TearKey(m), StoreKey(m, key.value)];
    } else if r.Some? {
      assert [DropKey(m)] + (CompileWrites(m, junk, r) + []) == [DropKey(m), Leave(m, junk), Finish(m, r.value)];
    } else {
      assert [DropKey(m)] + (CompileWrites(m, junk, r) + []) == [DropKey(m), Leave(m, junk)];
    }
  }

  lemma CompiledFiles(d: Disk, m: Name, junk: Option<Bytes>, lib: Bytes)
    ensures var d' := ApplyAll(d, [DropKey(m)] + CompileWrites(m, junk, Some(lib)));
            d'.libs == d.libs[m := lib] && d'.keys == d.keys - {m}
  {
    var ws := [DropKey(m)] + CompileWrites(m, junk, Some(lib));
    assert ws == [DropKey(m)] + ([Leave(m, junk)] + [Finish(m, lib)]);
    var d1 := Apply(d, DropKey(m));
    WritesSplit(d, [DropKey(m)], [Leave(m, junk)] + [Finish(m, lib)]);
    WritesSplit(d1, [Leave(m, junk)], [Finish(m, lib)]);
    OneWrite(d, DropKey(m));
    OneWrite(d1, Leave(m, junk));
    OneWrite(Apply(d1, Leave(m, junk)), Finish(m, lib));
  }

  lemma OneWrite(d: Disk, w: Write)
    ensures ApplyAll(d, [w]) == Apply(d, w) && [w][..0] == [] && ApplyAll(d, []) == d
  {
  }

  /** What the compiler writes, from its first byte to the finished file. */
  function CompileWrites(m: Name, junk: Option<Bytes>, r: Option<Bytes>): (ws: seq<Write>) {
    [Leave(m, junk)] + if r.Some? then [Finish(m, r.value)] else []
  }

  function KeyWrites(m: Name, key: Option<Key>): (ws: seq<Write>) {
    if key.Some? then [TearKey(m), StoreKey(m, key.value)] else []
  }

  lemma FilesAfter(p: Project, d: Disk, d2: Disk, m: Name, lib: Bytes)
    requires d2.libs == d.libs[m := lib]
    ensures Files(p, d2) == Files(p, d)[m := lib]
  {
  }

  lemma NoKeyWritten(m: Name)
    ensures KeyWrites(m, None) == []
  {
  }

  // ---- A deleted module ----

  /** A source names its import, or none, and its library file is the
      source. */
  const COPIER := Tools(
    (m: Name, src: Bytes, options: Bytes, inputs: map<Name, Bytes>) => Some(src),
    (src: Bytes) => if src == "" then [] else [src],
    (lib: Bytes) => if lib == "" then [] else [lib],
    (lib: Bytes) => true, (bytes: Bytes) => bytes)

  /** A project of one module a, and one of a module b that imports it. */
  const WHOLE := Project(["a"], map["a" := ""], "", map[], [])
  const ORPHAN := Project(["b"], map["b" := "a"], "", map[], [])

  lemma OneModule(t: Tools, p: Project, d: Disk, m: Name, junk: Name -> Option<Bytes>)
    requires Sane(t) && Truthful(t, d) && p.order == [m] && m in p.sources
    ensures var made := CompileOf(t, p, Files(p, d), m);
            var (d', outcome) := BuildFrom(t, p, d, 0, 5, junk);
            && (made.None? ==> outcome == Failed)
            && (made.Some? ==> outcome == Done && d'.libs == d.libs[m := made.value])
  {
    assert p.order[0] == m && ValidProject(p);
    var (ok, ws) := Plan(t, p, d, m, junk(m));
    PlanBuilds(t, p, d, m, junk(m));
    BuildUnfolds(t, p, d, 0, 5, junk);
    if ok { BuildUnfolds(t, p, ApplyAll(d, ws), 1, 5 - |ws|, junk); }
  }

  lemma EditedAfter(p: Project, q: Project, junk: Name -> Option<Bytes>)
    requires ValidProject(p) && ValidProject(q)
    ensures Run(COPIER, p, [Build(5, junk), Edit(q)]) == State(q, BuildFrom(COPIER, p, EMPTY, 0, 5, junk).0)
  {
    var events := [Build(5, junk), Edit(q)];
    assert events[..1] == [Build(5, junk)] && events[..1][..0] == [];
    assert Run(COPIER, p, []) == State(p, EMPTY);
    assert Run(COPIER, p, events[..1]) == Step(COPIER, State(p, EMPTY), Build(5, junk));
  }

  /** An import of a deleted module is outside the theorem: its library file
      still answers the search, so the build succeeds where a clean one
      fails. */
  lemma DeletedModuleStillFound(junk: Name -> Option<Bytes>)
    ensures Sane(COPIER)
    ensures var s := Run(COPIER, WHOLE, [Build(5, junk), Edit(ORPHAN)]);
            && s.project == ORPHAN && !InOrder(COPIER, ORPHAN) && NoShadow(ORPHAN, s.disk)
            && BuildFrom(COPIER, ORPHAN, s.disk, 0, 5, junk).1 == Done
            && BuildFrom(COPIER, ORPHAN, EMPTY, 0, 5, junk).1 == Failed
  {
    hide CompileOf, BuildFrom, Run, KeyOf, Truthful;
    var events := [Build(5, junk), Edit(ORPHAN)];
    var d := BuildFrom(COPIER, WHOLE, EMPTY, 0, 5, junk).0;
    EditedAfter(WHOLE, ORPHAN, junk);
    KeysAreTruthful(COPIER, WHOLE, events);
    Searches();
    OneModule(COPIER, WHOLE, EMPTY, "a", junk);
    OneModule(COPIER, ORPHAN, d, "b", junk);
    OneModule(COPIER, ORPHAN, EMPTY, "b", junk);
    assert "a" in COPIER.sourceImports(ORPHAN.sources[ORPHAN.order[0]]) && !Reach(ORPHAN, 0, "a");
  }

  lemma Searches()
    ensures CompileOf(COPIER, WHOLE, map[], "a") == Some("")
    ensures CompileOf(COPIER, ORPHAN, map["a" := ""], "b") == Some("a")
    ensures CompileOf(COPIER, ORPHAN, map[], "b") == None
    ensures Files(WHOLE, EMPTY) == map[] && Files(ORPHAN, EMPTY) == map[]
    ensures forall d: Disk :: d.libs == map["a" := ""] ==> Files(ORPHAN, d) == map["a" := ""]
  {
    hide CompileOf, Walk;
    CompileIsWalked(COPIER, WHOLE, map[], "a");
    CompileIsWalked(COPIER, ORPHAN, map["a" := ""], "b");
    CompileIsWalked(COPIER, ORPHAN, map[], "b");
    OneImport(map["a" := ""], "a", "b");
    NoImport("a");
    OrphanImport();
  }

  lemma NoImport(m: Name)
    ensures Walk(COPIER, map[], [] + [], [m]) == Some([m])
  {
  }

  lemma OrphanImport()
    ensures Walk(COPIER, map[], ["a"] + [], ["b"]).None?
  {
    assert ["a"] + [] == ["a"];
  }

  // ---- A module that comes from outside ----

  /** A project of one module a that imports x, and one where a comes from
      outside, without an import. */
  const INSIDE := Project(["a"], map["a" := "x"], "", map["x" := ""], [])
  const OUTSIDE := Project(["b"], map["b" := "a"], "", map["a" := ""], [])

  /** A library file of the build that hides one from outside: the imports are
      all in order, and the build fails where a clean one succeeds. */
  lemma ShadowingFileFound(junk: Name -> Option<Bytes>)
    ensures Sane(COPIER)
    ensures var s := Run(COPIER, INSIDE, [Build(5, junk), Edit(OUTSIDE)]);
            && s.project == OUTSIDE && InOrder(COPIER, OUTSIDE) && !NoShadow(OUTSIDE, s.disk)
            && BuildFrom(COPIER, OUTSIDE, s.disk, 0, 5, junk).1 == Failed
            && BuildFrom(COPIER, OUTSIDE, EMPTY, 0, 5, junk).1 == Done
  {
    var events := [Build(5, junk), Edit(OUTSIDE)];
    var d := BuildFrom(COPIER, INSIDE, EMPTY, 0, 5, junk).0;
    EditedAfter(INSIDE, OUTSIDE, junk);
    KeysAreTruthful(COPIER, INSIDE, events);
    ShadowSearches();
    OneModule(COPIER, INSIDE, EMPTY, "a", junk);
    OneModule(COPIER, OUTSIDE, d, "b", junk);
    OneModule(COPIER, OUTSIDE, EMPTY, "b", junk);
    OutsideInOrder();
    assert "a" in OUTSIDE.external && "a" in d.libs;
  }

  lemma OutsideInOrder()
    ensures InOrder(COPIER, OUTSIDE)
  {
  }

  lemma ShadowSearches()
    ensures CompileOf(COPIER, INSIDE, map["x" := ""], "a") == Some("x")
    ensures CompileOf(COPIER, OUTSIDE, map["a" := "x"], "b") == None
    ensures CompileOf(COPIER, OUTSIDE, map["a" := ""], "b") == Some("a")
    ensures Files(INSIDE, EMPTY) == map["x" := ""] && Files(OUTSIDE, EMPTY) == map["a" := ""]
    ensures forall d: Disk :: d.libs == map["a" := "x"] ==> Files(OUTSIDE, d) == map["a" := "x"]
  {
    hide Walk, CompileOf;
    CompileIsWalked(COPIER, INSIDE, map["x" := ""], "a");
    CompileIsWalked(COPIER, OUTSIDE, map["a" := "x"], "b");
    CompileIsWalked(COPIER, OUTSIDE, map["a" := ""], "b");
    OneImport(map["x" := ""], "x", "a");
    OneImport(map["a" := ""], "a", "b");
    StaleImport();
    assert ["a"] + [] == ["a"];
  }

  lemma StaleImport()
    ensures Walk(COPIER, map["a" := "x"], ["a"] + [], ["b"]).None?
  {
    var stale: map<Name, Bytes> := map["a" := "x"];
    assert Walk(COPIER, stale, ["x"], ["b", "a"]).None?;
    assert ["a"] + [] == ["a"] && ["a"][1..] + ["x"] == ["x"] && ["b"] + ["a"] == ["b", "a"];
    assert Walk(COPIER, stale, ["a"], ["b"]) == Walk(COPIER, stale, ["a"][1..] + ["x"], ["b"] + ["a"]);
  }

  /** A module that imports one file without imports of its own. */
  lemma OneImport(files: map<Name, Bytes>, n: Name, m: Name)
    requires n in files && files[n] == "" && n != m
    ensures Walk(COPIER, files, [n] + [], [m]) == Some([m, n])
  {
    assert [n] + [] == [n] && [n][1..] + [] == [] && [m] + [n] == [m, n];
    assert Walk(COPIER, files, [n], [m]) == Walk(COPIER, files, [n][1..] + [], [m] + [n]);
    assert Walk(COPIER, files, [], [m, n]) == Some([m, n]);
  }
}
