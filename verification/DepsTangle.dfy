/** An index whose walk settles on a pick that nothing requires. */
module DepsTangle {
  import opened Options
  import opened Version
  import opened Numerals
  import opened Deps
  import opened DepsTheorems
  import opened DepsRooted
  import opened Lock

  function On(name: Name, constraint: string): (d: Dep) {
    Dep(name, constraint, "", "", true)
  }

  function Release(version: string, deps: seq<Dep>): (e: Entry) {
    Entry(version, false, true, deps)
  }

  /** Version 2 of a needs version 1 of x, whose y in turn needs version 2 of
      x; version 2 of x needs version 1 of a. */
  function TangleIndex(url: string, name: Name): (i: Index) {
    if name == "a" then Held([Release("1", []), Release("2", [On("x", "=1")])])
    else if name == "x" then Held([Release("1", [On("y", "")]), Release("2", [On("a", "=1")])])
    else if name == "y" then Held([Release("1", [On("x", ">=2"), On("a", ">=1")])])
    else Absent
  }

  const TANGLE := World(["r"], TangleIndex, (path: string, name: Name) => None)

  function R(from: Name, name: Name, constraint: string): (q: Requirement) {
    Requirement(name, constraint, "", "", from)
  }

  function P(name: Name, version: string): (p: Package) {
    Package(name, version, "r", "", [])
  }

  const NEED := [On("a", ">=1")]
  const S0 := State([R("", "a", ">=1")], [])
  const S1 := State([R("", "a", ">=1"), R("a", "x", "=1")], [P("a", "2")])
  const S2 := State([R("", "a", ">=1"), R("a", "x", "=1"), R("x", "y", "")], [P("a", "2"), P("x", "1")])
  const S3 := State([R("", "a", ">=1"), R("a", "x", "=1"), R("x", "y", ""), R("y", "x", ">=2"), R("y", "a", ">=1")],
                    [P("a", "2"), P("x", "1"), P("y", "1")])
  const S4 := State([R("", "a", ">=1"), R("x", "a", "=1")], [P("x", "2")])
  const S5 := State([R("", "a", ">=1"), R("x", "a", "=1")], [P("x", "2"), P("a", "1")])

  lemma OneDigit(version: string)
    requires version in {"1", "2"}
    ensures ValidFrom(version, 0, 3)
    ensures PartsOf(version) == Parts(if version == "1" then 1 else 2, 0, 0)
  {
    OneGroup(version);
    PartsAreNumbers([version]);
    assert Valid(version);
    ValidExactly(version);
  }

  lemma OneGroup(version: string)
    requires version in {"1", "2"}
    ensures Groups([version]) && Join([version]) == version
    ensures Numbers([version]) == Parts(if version == "1" then 1 else 2, 0, 0)
  {
    assert version[..0] == "" && ValueIn(version, 10) == DigitIn(version[0], 10);
  }

  /** What the constraints of the index take. */
  lemma Takes(v: string)
    requires v in {"1", "2"}
    ensures Satisfies("", v) && Satisfies(">=1", v)
    ensures Satisfies("=1", v) <==> v == "1"
    ensures Satisfies(">=2", v) <==> v == "2"
  {
    OneDigit(v);
    TakesOne(v);
    TakesTwo(v);
  }

  lemma OfOneGroup(g: string, v: string, exact: string, lower: string)
    requires Groups([g]) && Groups([v]) && Join([g]) == g && Join([v]) == v
    requires exact == "=" + g && lower == ">=" + g
    ensures Satisfies(exact, v) <==> Numbers([v]) == Numbers([g])
    ensures Satisfies(lower, v) <==> !Below(Numbers([v]), Numbers([g]))
  {
    ConstraintMeans([g], [v]);
  }

  lemma TakesOne(v: string)
    requires v in {"1", "2"}
    ensures Satisfies(">=1", v) && (Satisfies("=1", v) <==> v == "1")
  {
    OneGroup("1");
    OneGroup(v);
    OfOneGroup("1", v, "=1", ">=1");
  }

  lemma TakesTwo(v: string)
    requires v in {"1", "2"}
    ensures Satisfies(">=2", v) <==> v == "2"
  {
    OneGroup("2");
    OneGroup(v);
    OfOneGroup("2", v, "=2", ">=2");
  }

  /** What the constraints of the index take, as a table. */
  predicate Table(c: string, v: string) {
    c == "" || c == ">=1" || (c == "=1" && v == "1") || (c == ">=2" && v == "2")
  }

  predicate Listed(c: string) {
    c == "" || c == ">=1" || c == "=1" || c == ">=2"
  }

  lemma TableIs(c: string, v: string)
    requires Listed(c) && v in {"1", "2"}
    ensures Satisfies(c, v) <==> Table(c, v)
  {
    Takes(v);
  }

  /** Whether a version satisfies requirements read one by one. */
  lemma Satisfying(reqs: seq<Requirement>, name: Name, version: string)
    requires version in {"1", "2"}
    requires forall k :: 0 <= k < |reqs| && reqs[k].name == name ==> Listed(reqs[k].constraint)
    ensures SatisfiesAll(reqs, name, version) <==>
            forall k :: 0 <= k < |reqs| && reqs[k].name == name ==> Table(reqs[k].constraint, version)
  {
    forall k | 0 <= k < |reqs| && reqs[k].name == name
      ensures Satisfies(reqs[k].constraint, version) <==> Table(reqs[k].constraint, version)
    {
      TableIs(reqs[k].constraint, version);
    }
  }

  /** The highest of the versions 1 and 2 that the requirements take. */
  lemma BestOfTwo(reqs: seq<Requirement>, name: Name, d1: seq<Dep>, d2: seq<Dep>)
    requires SatisfiesAll(reqs, name, "1") || SatisfiesAll(reqs, name, "2")
    ensures var entries := [Release("1", d1), Release("2", d2)];
            && VersionsValid(entries, 2)
            && Best(reqs, name, entries) == Some(if SatisfiesAll(reqs, name, "2") then 1 else 0)
  {
    var entries := [Release("1", d1), Release("2", d2)];
    OneDigit("1");
    OneDigit("2");
    var answers, versions := AllAnswers(reqs, name, entries), AllVersions(entries);
    assert VersionsValid(entries, 1);
    assert Greatest(answers, versions, 0) == None;
    assert Greatest(answers, versions, 1) == if SatisfiesAll(reqs, name, "1") then Some(0) else None;
  }

  lemma OneRepository(reqs: seq<Requirement>, name: Name)
    ensures var a := FromIndex(TANGLE, reqs, name, "r");
            a.ok && a.version.Some? ==> Pick(TANGLE, reqs, name, "", "") == (a.reqs, Some(P(name, a.version.value)))
  {
    var a := FromIndex(TANGLE, reqs, name, "r");
    if a.ok && a.version.Some? {
      assert FromAny(TANGLE, a.reqs, name, 1, Some((a.version.value, "r"))) == (a.reqs, Some((a.version.value, "r")));
    }
  }

  lemma PickA(reqs: seq<Requirement>)
    requires SatisfiesAll(reqs, "a", "1") || SatisfiesAll(reqs, "a", "2")
    ensures Pick(TANGLE, reqs, "a", "", "") ==
            if SatisfiesAll(reqs, "a", "2") then (With(reqs, R("a", "x", "=1")), Some(P("a", "2")))
            else (reqs, Some(P("a", "1")))
  {
    var d2 := [On("x", "=1")];
    BestOfTwo(reqs, "a", [], d2);
    OneRepository(reqs, "a");
    assert TANGLE.index("r", "a") == Held([Release("1", []), Release("2", d2)]);
    var more := With(reqs, R("a", "x", "=1"));
    assert d2[1..] == [] && RequireAll(more, [], "a") == (more, true);
  }

  lemma PickX(reqs: seq<Requirement>)
    requires SatisfiesAll(reqs, "x", "1") || SatisfiesAll(reqs, "x", "2")
    ensures Pick(TANGLE, reqs, "x", "", "") ==
            if SatisfiesAll(reqs, "x", "2") then (With(reqs, R("x", "a", "=1")), Some(P("x", "2")))
            else (With(reqs, R("x", "y", "")), Some(P("x", "1")))
  {
    hide SatisfiesAll;
    var d1, d2 := [On("y", "")], [On("a", "=1")];
    BestOfTwo(reqs, "x", d1, d2);
    OneRepository(reqs, "x");
    assert "x" != "a";
    assert TANGLE.index("r", "x") == Held([Release("1", d1), Release("2", d2)]);
    var one, two := With(reqs, R("x", "y", "")), With(reqs, R("x", "a", "=1"));
    assert d1[1..] == [] && RequireAll(one, [], "x") == (one, true);
    assert d2[1..] == [] && RequireAll(two, [], "x") == (two, true);
  }

  lemma PickY(reqs: seq<Requirement>)
    requires SatisfiesAll(reqs, "y", "1")
    ensures Pick(TANGLE, reqs, "y", "", "") ==
            (With(With(reqs, R("y", "x", ">=2")), R("y", "a", ">=1")), Some(P("y", "1")))
  {
    var d := [On("x", ">=2"), On("a", ">=1")];
    var entries := [Release("1", d)];
    OneDigit("1");
    OneRepository(reqs, "y");
    assert "y" != "a" && "y" != "x";
    assert TANGLE.index("r", "y") == Held(entries);
    assert Greatest(AllAnswers(reqs, "y", entries), AllVersions(entries), 0) == None;
    var one := With(reqs, R("y", "x", ">=2"));
    var two := With(one, R("y", "a", ">=1"));
    assert d[1..] == [On("a", ">=1")] && d[1..][1..] == [] && RequireAll(two, [], "y") == (two, true);
    assert RequireAll(one, d[1..], "y") == (two, true);
  }

  // ---- The rounds ----

  lemma Append(reqs: seq<Requirement>, q: Requirement, names: seq<Name>)
    requires Required(reqs) == names
    ensures Required(reqs + [q]) == if q.name in names then names else names + [q.name]
  {
    assert (reqs + [q])[..|reqs|] == reqs;
  }

  lemma OrderA()
    ensures Required(S0.reqs) == ["a"] && Required(S4.reqs) == ["a"]
  {
    assert [] + [R("", "a", ">=1")] == S0.reqs;
    Append([], R("", "a", ">=1"), []);
    assert S0.reqs + [R("x", "a", "=1")] == S4.reqs;
    Append(S0.reqs, R("x", "a", "=1"), ["a"]);
  }

  lemma OrderX()
    ensures Required(S1.reqs) == ["a", "x"] && Required(S2.reqs) == ["a", "x", "y"]
  {
    OrderA();
    assert S0.reqs + [R("a", "x", "=1")] == S1.reqs;
    Append(S0.reqs, R("a", "x", "=1"), ["a"]);
    assert S1.reqs + [R("x", "y", "")] == S2.reqs;
    Append(S1.reqs, R("x", "y", ""), ["a", "x"]);
  }

  lemma OrderY()
    ensures Required(S3.reqs) == ["a", "x", "y"]
  {
    OrderX();
    var more := S2.reqs + [R("y", "x", ">=2")];
    Append(S2.reqs, R("y", "x", ">=2"), ["a", "x", "y"]);
    assert more + [R("y", "a", ">=1")] == S3.reqs;
    Append(more, R("y", "a", ">=1"), ["a", "x", "y"]);
  }

  lemma VisitNew(s: State, name: Name, i: nat, reqs: seq<Requirement>, p: Package)
    requires PickOf(s.graph, name).None? && i < |s.reqs| && s.reqs[i].name == name
    requires forall k :: 0 <= k < |s.reqs| ==> s.reqs[k].repo == "" && s.reqs[k].path == ""
    requires Pick(TANGLE, s.reqs, name, "", "") == (reqs, Some(p))
    ensures Visit(TANGLE, s, name) == Walk(State(reqs, s.graph + [p]), true, true)
  {
    assert s.reqs[i] in s.reqs;
    var source := SourceOf(s.reqs, name).value;
    assert source in s.reqs && source.repo == "" && source.path == "";
    assert Cleared(s, name) == s;
  }

  lemma WithNew(reqs: seq<Requirement>, q: Requirement)
    requires forall k :: 0 <= k < |reqs| ==> reqs[k].name != q.name || reqs[k].from != q.from
    ensures With(reqs, q) == reqs + [q]
  {
  }

  lemma VisitQuiet(s: State, name: Name)
    requires Answered(s, name)
    ensures Visit(TANGLE, s, name) == Walk(s, true, false)
  {
  }

  lemma VisitFirst(s: State, names: seq<Name>, one: Walk)
    requires names != [] && one == Visit(TANGLE, s, names[0]) && one.ok
    ensures VisitAll(TANGLE, s, names) == Onward(one.changed, VisitAll(TANGLE, one.s, names[1..]))
  {
  }

  /** A round whose names all stand, but for the last. */
  lemma LastVisited(s: State, names: seq<Name>, name: Name, t: State)
    requires forall i :: 0 <= i < |names| ==> Answered(s, names[i])
    requires Visit(TANGLE, s, name) == Walk(t, true, true)
    ensures VisitAll(TANGLE, s, names + [name]) == Walk(t, true, true)
    decreases |names|
  {
    var all := names + [name];
    if names == [] {
      VisitFirst(s, all, Walk(t, true, true));
      assert all[1..] == [];
    } else {
      VisitQuiet(s, names[0]);
      VisitFirst(s, all, Walk(s, true, false));
      assert all[1..] == names[1..] + [name];
      LastVisited(s, names[1..], name, t);
    }
  }

  lemma ThirdVisited(s: State, a: Name, x: Name, y: Name, t: State)
    requires Required(s.reqs) == [a, x, y] && Answered(s, a) && Answered(s, x)
    requires Visit(TANGLE, s, y) == Walk(t, true, true)
    ensures Round(TANGLE, s) == Walk(t, true, true)
  {
    LastVisited(s, [a, x], y, t);
    assert [a, x] + [y] == [a, x, y];
  }

  lemma RoundOne()
    ensures Round(TANGLE, S0) == Walk(S1, true, true)
  {
    OrderA();
    Satisfying(S0.reqs, "a", "2");
    PickA(S0.reqs);
    WithNew(S0.reqs, R("a", "x", "=1"));
    assert With(S0.reqs, R("a", "x", "=1")) == S1.reqs;
    VisitNew(S0, "a", 0, S1.reqs, P("a", "2"));
    assert S0.graph + [P("a", "2")] == S1.graph;
    LastVisited(S0, [], "a", S1);
    assert [] + ["a"] == ["a"];
  }

  lemma AnsweredBy(s: State, i: nat)
    requires Unique(s.graph) && i < |s.graph| && s.graph[i].version in {"1", "2"}
    requires forall k :: 0 <= k < |s.reqs| && s.reqs[k].name == s.graph[i].name ==>
               Listed(s.reqs[k].constraint) && Table(s.reqs[k].constraint, s.graph[i].version)
    ensures Answered(s, s.graph[i].name)
  {
    PickOfIs(s.graph, s.graph[i].name);
    Satisfying(s.reqs, s.graph[i].name, s.graph[i].version);
  }

  lemma UnansweredBy(s: State, i: nat, k: nat)
    requires Unique(s.graph) && i < |s.graph| && s.graph[i].version in {"1", "2"}
    requires k < |s.reqs| && s.reqs[k].name == s.graph[i].name
    requires Listed(s.reqs[k].constraint) && !Table(s.reqs[k].constraint, s.graph[i].version)
    ensures !Answered(s, s.graph[i].name)
  {
    PickOfIs(s.graph, s.graph[i].name);
    TableIs(s.reqs[k].constraint, s.graph[i].version);
    assert s.reqs[k] in s.reqs;
  }

  lemma StandTwo()
    ensures Answered(S1, "a")
  {
    AnsweredBy(S1, 0);
  }

  lemma OnlyTwo()
    ensures SatisfiesAll(S1.reqs, "x", "1") && !SatisfiesAll(S1.reqs, "x", "2")
  {
    Satisfying(S1.reqs, "x", "1");
    assert S1.reqs[1] in S1.reqs && S1.reqs[1].name == "x" && S1.reqs[1].constraint == "=1";
  }

  lemma PickTwo()
    ensures Pick(TANGLE, S1.reqs, "x", "", "") == (S2.reqs, Some(P("x", "1")))
  {
    OnlyTwo();
    PickX(S1.reqs);
    WithNew(S1.reqs, R("x", "y", ""));
    assert S1.reqs + [R("x", "y", "")] == S2.reqs;
  }

  lemma VisitTwo()
    ensures Visit(TANGLE, S1, "x") == Walk(S2, true, true)
  {
    PickTwo();
    VisitNew(S1, "x", 1, S2.reqs, P("x", "1"));
  }

  lemma RoundTwo()
    ensures Round(TANGLE, S1) == Walk(S2, true, true)
  {
    hide Visit, VisitAll, Answered;
    OrderX();
    StandTwo();
    VisitTwo();
    LastVisited(S1, ["a"], "x", S2);
    assert ["a"] + ["x"] == ["a", "x"];
  }

  lemma StandThree()
    ensures Answered(S2, "a") && Answered(S2, "x")
  {
    StandThreeX();
    AnsweredBy(S2, 0);
  }

  lemma StandThreeX()
    ensures Answered(S2, "x")
  {
    AnsweredBy(S2, 1);
  }

  lemma AddThree()
    ensures With(With(S2.reqs, R("y", "x", ">=2")), R("y", "a", ">=1")) == S3.reqs
  {
    var one := S2.reqs + [R("y", "x", ">=2")];
    WithNew(S2.reqs, R("y", "x", ">=2"));
    WithNew(one, R("y", "a", ">=1"));
    assert one + [R("y", "a", ">=1")] == S3.reqs;
  }

  lemma PickThree()
    ensures Pick(TANGLE, S2.reqs, "y", "", "") == (S3.reqs, Some(P("y", "1")))
  {
    Satisfying(S2.reqs, "y", "1");
    PickY(S2.reqs);
    AddThree();
  }

  lemma NoPickOfY()
    ensures PickOf(S2.graph, "y").None?
  {
    forall p | p in S2.graph ensures p.name != "y" {}
  }

  lemma PlainThree()
    ensures |S2.reqs| == 3 && S2.reqs[2].name == "y"
    ensures forall k :: 0 <= k < |S2.reqs| ==> S2.reqs[k].repo == "" && S2.reqs[k].path == ""
  {
  }

  lemma VisitThree()
    ensures Visit(TANGLE, S2, "y") == Walk(S3, true, true)
  {
    PickThree();
    NoPickOfY();
    PlainThree();
    VisitNew(S2, "y", 2, S3.reqs, P("y", "1"));
    assert S2.graph + [P("y", "1")] == S3.graph;
  }

  lemma RoundThree()
    ensures Round(TANGLE, S2) == Walk(S3, true, true)
  {
    OrderX();
    StandThree();
    VisitThree();
    ThirdVisited(S2, "a", "x", "y", S3);
  }

  lemma LinksOfX()
    ensures Link(S3, "x", "y") && Link(S3, "y", "a")
  {
    assert S3.graph[0] in S3.graph && S3.graph[2] in S3.graph;
    assert S3.reqs[2] in S3.reqs && S3.reqs[4] in S3.reqs;
  }

  lemma TakenByX(gone: set<Name>)
    requires gone == Taken(S3, "x")
    ensures "x" in gone && "y" in gone && "a" in gone && MANIFEST !in gone
  {
    LinksOfX();
    ReachesItself(S3, "x");
    ReachesOn(S3, "x", "x", "y");
    ReachesOn(S3, "x", "y", "a");
    assert NamedReqs(S3.reqs) by {
      forall k | 0 <= k < |S3.reqs| ensures S3.reqs[k].name != MANIFEST { assert |S3.reqs[k].name| == 1; }
    }
    NothingReachesManifest(S3, "x");
  }

  lemma DroppedByX(gone: set<Name>)
    requires "x" in gone && "y" in gone && "a" in gone && MANIFEST !in gone
    ensures DropFrom(S3.reqs, gone) == S0.reqs
  {
    var none: seq<Requirement> := [];
    var more := S2.reqs + [R("y", "x", ">=2")];
    assert none + [R("", "a", ">=1")] == S0.reqs && S0.reqs + [R("a", "x", "=1")] == S1.reqs;
    assert S1.reqs + [R("x", "y", "")] == S2.reqs && more + [R("y", "a", ">=1")] == S3.reqs;
    DropFromMore(none, R("", "a", ">=1"), gone);
    DropFromMore(S0.reqs, R("a", "x", "=1"), gone);
    DropFromMore(S1.reqs, R("x", "y", ""), gone);
    DropFromMore(S2.reqs, R("y", "x", ">=2"), gone);
    DropFromMore(more, R("y", "a", ">=1"), gone);
  }

  lemma {:induction false} AllDropped(graph: seq<Package>, gone: set<Name>)
    requires forall i :: 0 <= i < |graph| ==> graph[i].name in gone
    ensures Drop(graph, gone) == []
  {
    if graph != [] { AllDropped(graph[..|graph| - 1], gone); }
  }

  /** The pick of x goes back with y and a, so nothing requires x any more;
      the walk picks it again. */
  lemma ClearedOfX()
    ensures Cleared(S3, "x") == S0
  {
    var gone := Taken(S3, "x");
    UnpickedIs(S3, "x");
    TakenByX(gone);
    DroppedByX(gone);
    AllDropped(S3.graph, gone);
    assert S3.graph[1] in S3.graph;
  }

  lemma SourceOfX()
    ensures SourceOf(S3.reqs, "x").Some?
    ensures SourceOf(S3.reqs, "x").value.repo == "" && SourceOf(S3.reqs, "x").value.path == ""
  {
    assert S3.reqs[1] in S3.reqs;
    assert SourceOf(S3.reqs, "x").value in S3.reqs;
  }

  lemma StandFour()
    ensures Answered(S3, "a")
  {
    AnsweredBy(S3, 0);
  }

  lemma FallsFour()
    ensures !Answered(S3, "x")
  {
    UnansweredBy(S3, 1, 3);
  }

  lemma PickFour()
    ensures Pick(TANGLE, S0.reqs, "x", "", "") == (S4.reqs, Some(P("x", "2")))
  {
    Satisfying(S0.reqs, "x", "2");
    PickX(S0.reqs);
    WithNew(S0.reqs, R("x", "a", "=1"));
    assert S0.reqs + [R("x", "a", "=1")] == S4.reqs;
  }

  lemma VisitFour()
    ensures Visit(TANGLE, S3, "x") == Walk(S4, true, true)
  {
    hide Answered, SourceOf, Cleared, Pick;
    FallsFour();
    SourceOfX();
    ClearedOfX();
    PickFour();
    assert S0.graph + [P("x", "2")] == S4.graph;
  }

  lemma VisitGone()
    ensures Visit(TANGLE, S4, "y") == Walk(S4, true, false)
  {
    assert forall k :: 0 <= k < |S4.reqs| ==> S4.reqs[k].name != "y";
    assert PickOf(S4.graph, "y").None?;
  }

  lemma VisitsOfThree(s: State, t: State)
    requires Answered(s, "a") && Visit(TANGLE, s, "x") == Walk(t, true, true)
    requires Visit(TANGLE, t, "y") == Walk(t, true, false)
    ensures VisitAll(TANGLE, s, ["a", "x", "y"]) == Walk(t, true, true)
  {
    assert ["a", "x", "y"][1..] == ["x", "y"] && ["x", "y"][1..] == ["y"] && ["y"][1..] == [];
    assert VisitAll(TANGLE, t, []) == Walk(t, true, false);
    assert VisitAll(TANGLE, t, ["y"]) == Walk(t, true, false);
    assert VisitAll(TANGLE, s, ["x", "y"]) == Walk(t, true, true);
  }

  lemma RoundFour()
    ensures Round(TANGLE, S3) == Walk(S4, true, true)
  {
    OrderY();
    StandFour();
    VisitFour();
    VisitGone();
    VisitsOfThree(S3, S4);
  }

  lemma OnlyFive()
    ensures SatisfiesAll(S4.reqs, "a", "1") && !SatisfiesAll(S4.reqs, "a", "2")
  {
    Satisfying(S4.reqs, "a", "1");
    assert S4.reqs[1] in S4.reqs && S4.reqs[1].name == "a" && S4.reqs[1].constraint == "=1";
  }

  lemma VisitFive()
    ensures Visit(TANGLE, S4, "a") == Walk(S5, true, true)
  {
    hide Visit, Satisfies;
    OnlyFive();
    PickA(S4.reqs);
    VisitNew(S4, "a", 0, S5.reqs, P("a", "1"));
    assert S4.graph + [P("a", "1")] == S5.graph;
  }

  lemma RoundFive()
    ensures Round(TANGLE, S4) == Walk(S5, true, true)
  {
    OrderA();
    VisitFive();
    LastVisited(S4, [], "a", S5);
    assert [] + ["a"] == ["a"];
  }

  lemma RoundSix()
    ensures Round(TANGLE, S5) == Walk(S5, true, false)
  {
    AnsweredBy(S5, 1);
    QuietIffSettled(TANGLE, S5);
  }

  lemma SixRounds(w: World, s0: State, s1: State, s2: State, s3: State, s4: State, s5: State)
    requires Round(w, s0) == Walk(s1, true, true) && Round(w, s1) == Walk(s2, true, true)
    requires Round(w, s2) == Walk(s3, true, true) && Round(w, s3) == Walk(s4, true, true)
    requires Round(w, s4) == Walk(s5, true, true) && Round(w, s5) == Walk(s5, true, false)
    ensures Rounds(w, s0, ROUNDS) == Some(s5)
  {
    assert Rounds(w, s5, ROUNDS - 5) == Some(s5);
    assert Rounds(w, s4, ROUNDS - 4) == Some(s5);
    assert Rounds(w, s3, ROUNDS - 3) == Some(s5);
    assert Rounds(w, s2, ROUNDS - 2) == Some(s5);
    assert Rounds(w, s1, ROUNDS - 1) == Some(s5);
  }

  lemma StartsHere()
    ensures Start(NEED) == S0
  {
    WithNew([], R("", "a", ">=1"));
    assert NEED[1..] == [] && [] + [R("", "a", ">=1")] == S0.reqs;
    assert RequireAll(S0.reqs, [], MANIFEST) == (S0.reqs, true);
  }

  lemma Unreached(s: State, name: Name)
    requires name != MANIFEST && forall q :: q in s.reqs ==> q.name != name
    ensures !Reaches(s, MANIFEST, name)
  {
    forall p | Chain(s, p) && p[0] == MANIFEST ensures p[|p| - 1] != name {
      if |p| > 1 {
        var i := |p| - 2;
        assert Link(s, p[i], p[i + 1]);
      }
    }
  }

  /** A settled pick that the manifest does not reach: x stands in the graph,
      and no requirement names it. */
  lemma SettledButUnreached()
    ensures Rounds(TANGLE, Start(NEED), ROUNDS) == Some(S5)
    ensures "x" in Names(S5.graph) && !Reaches(S5, MANIFEST, "x")
  {
    hide Rounds, Round, Start;
    RoundOne();
    RoundTwo();
    RoundThree();
    RoundFour();
    RoundFive();
    RoundSix();
    SixRounds(TANGLE, S0, S1, S2, S3, S4, S5);
    StartsHere();
    assert S5.graph[0] in S5.graph;
    forall k | 0 <= k < |S5.reqs| ensures S5.reqs[k].name != "x" {}
    Unreached(S5, "x");
  }

  lemma TangleNamed()
    ensures NamedWorld(TANGLE) && NamedDeps(NEED)
  {
  }

  /** So the lock file this walk writes is one its check never takes. */
  lemma TangleLockUnreached()
    ensures exists i :: 0 <= i < |Recorded(S5).graph| && !Reached(DepNames(NEED), Recorded(S5).graph, i)
  {
    SettledButUnreached();
    TangleNamed();
    RootedIffLockReached(TANGLE, NEED, S5);
  }
}
