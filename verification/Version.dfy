/** The versions and constraints of package dependencies: `version_part`,
    `deps_version_compare` and `deps_satisfies` of deps.c, with the grammar
    `manifest_version_valid` of manifest.c. */
module Version {
  import opened Numerals

  /** The largest part of a version, nine nines. */
  const PART_MAX := 999_999_999
  const VERSION_DIGITS := 9

  function AtMost(n: nat, limit: nat): (r: nat) {
    if n <= limit then n else limit
  }

  /** The part of `s` at `at`, and where the next one starts. */
  function Part(s: string, at: nat): (r: (nat, nat))
    requires at <= |s|
    ensures at <= r.1 <= |s|
  {
    var e := RunEnd(s, at, 10);
    (AtMost(ValueIn(s[at..e], 10), PART_MAX + 1), if e < |s| && s[e] == '.' then e + 1 else e)
  }

  lemma NoDigits()
    ensures Digits("", 10) && ValueIn("", 10) == 0
  {
  }

  lemma OneMoreDigit(s: string, c: char)
    requires Digits(s, 10) && DigitIn(c, 10) >= 0
    ensures Digits(s + [c], 10) && ValueIn(s + [c], 10) == 10 * ValueIn(s, 10) + DigitIn(c, 10)
  {
    assert (s + [c])[..|s|] == s;
  }

  /** The number of the part, read by steps that stop growing above the
      largest part. */
  method VersionPart(s: string, at: nat) returns (value: nat, next: nat)
    requires at <= |s|
    ensures (value, next) == Part(s, at)
  {
    hide ValueIn, Digits, RunEnd;
    value, next := 0, at;
    assert s[at..at] == "";
    NoDigits();
    while next < |s| && DigitIn(s[next], 10) >= 0
      invariant at <= next <= |s| && Digits(s[at..next], 10)
      invariant ValueIn(s[at..next], 10) <= PART_MAX ==> value == ValueIn(s[at..next], 10)
      invariant ValueIn(s[at..next], 10) > PART_MAX ==> value > PART_MAX
    {
      var d := DigitIn(s[next], 10);
      assert s[at..next + 1] == s[at..next] + [s[next]];
      OneMoreDigit(s[at..next], s[next]);
      if value <= PART_MAX { value := value * 10 + d; }
      next := next + 1;
    }
    RunEndIs(s, at, 10, next);
    if value > PART_MAX { value := PART_MAX + 1; }
    if next < |s| && s[next] == '.' { next := next + 1; }
  }

  datatype Parts = Parts(major: nat, minor: nat, patch: nat)

  function PartsOf(s: string): (p: Parts) {
    var (a, i) := Part(s, 0);
    var (b, j) := Part(s, i);
    var (c, k) := Part(s, j);
    Parts(a, b, c)
  }

  predicate Below(p: Parts, q: Parts) {
    p.major < q.major || (p.major == q.major && (p.minor < q.minor || (p.minor == q.minor && p.patch < q.patch)))
  }

  method Compare(a: string, b: string) returns (r: int)
    ensures r < 0 <==> Below(PartsOf(a), PartsOf(b))
    ensures r > 0 <==> Below(PartsOf(b), PartsOf(a))
    ensures r == 0 <==> PartsOf(a) == PartsOf(b)
  {
    var i, j, k := 0, 0, 0;
    while i < 3
      invariant 0 <= i <= 3 && j <= |a| && k <= |b|
      invariant i == 0 ==> j == 0 && k == 0
      invariant i == 1 ==> j == Part(a, 0).1 && k == Part(b, 0).1
      invariant i == 2 ==> j == Part(a, Part(a, 0).1).1 && k == Part(b, Part(b, 0).1).1
      invariant i >= 1 ==> PartsOf(a).major == PartsOf(b).major
      invariant i >= 2 ==> PartsOf(a).minor == PartsOf(b).minor
      invariant i >= 3 ==> PartsOf(a).patch == PartsOf(b).patch
    {
      var left, right;
      left, j := VersionPart(a, j);
      right, k := VersionPart(b, k);
      if left != right {
        return if left < right then -1 else 1;
      }
      i := i + 1;
    }
    r := 0;
  }

  method IsBelow(a: string, b: string) returns (below: bool)
    ensures below <==> Below(PartsOf(a), PartsOf(b))
  {
    var r := Compare(a, b);
    below := r < 0;
  }

  // ---- The grammar ----

  predicate Group(g: string) {
    1 <= |g| <= 9 && Digits(g, 10)
  }

  /** One to three groups of one to nine digits. */
  predicate Groups(gs: seq<string>) {
    1 <= |gs| <= 3 && forall i :: 0 <= i < |gs| ==> Group(gs[i])
  }

  function Join(gs: seq<string>): (s: string) {
    if gs == [] then "" else if |gs| == 1 then gs[0] else gs[0] + "." + Join(gs[1..])
  }

  ghost predicate Valid(s: string) {
    exists gs :: Groups(gs) && s == Join(gs)
  }

  /** The groups of `s` from `at` on, where at most `room` may follow. */
  predicate ValidFrom(s: string, at: nat, room: nat)
    requires at <= |s|
    decreases room
  {
    var e := RunEnd(s, at, 10);
    && 1 <= e - at <= VERSION_DIGITS
    && (e == |s| || (s[e] == '.' && room > 1 && ValidFrom(s, e + 1, room - 1)))
  }

  lemma ValidStep(s: string, at: nat, room: nat, e: nat)
    requires at <= |s| && RunEnd(s, at, 10) == e
    ensures ValidFrom(s, at, room) <==>
            && 1 <= e - at <= VERSION_DIGITS
            && (e == |s| || (s[e] == '.' && room > 1 && ValidFrom(s, e + 1, room - 1)))
  {
  }

  method VersionValid(s: string) returns (ok: bool)
    ensures ok <==> ValidFrom(s, 0, 3)
  {
    hide ValidFrom, RunEnd;
    var p, parts := 0, 0;
    while true
      invariant 0 <= p <= |s| && 0 <= parts < 3
      invariant ValidFrom(s, 0, 3) <==> ValidFrom(s, p, 3 - parts)
      decreases 3 - parts
    {
      var digits := 0;
      while p + digits < |s| && DigitIn(s[p + digits], 10) >= 0
        invariant p + digits <= |s| && Digits(s[p..p + digits], 10)
      {
        assert s[p..p + digits + 1] == s[p..p + digits] + [s[p + digits]];
        digits := digits + 1;
      }
      RunEndIs(s, p, 10, p + digits);
      ValidStep(s, p, 3 - parts, p + digits);
      if digits == 0 || digits > VERSION_DIGITS { return false; }
      p := p + digits;
      parts := parts + 1;
      if p == |s| { return true; }
      if s[p] != '.' || parts == 3 { return false; }
      p := p + 1;
    }
  }

  lemma GroupAt(s: string, g: string, at: nat, e: nat)
    requires at <= e <= |s| && s[at..e] == g && 1 <= |g| <= VERSION_DIGITS && Digits(g, 10)
    requires e < |s| ==> s[e] == '.'
    ensures RunEnd(s, at, 10) == e
    ensures Part(s, at) == (ValueIn(g, 10), if e < |s| then e + 1 else e)
  {
    RunEndIs(s, at, 10, e);
    ValueFits(g);
  }

  lemma FirstGroup(s: string, g: string, rest: string, at: nat)
    requires at <= |s| && s[at..] == g + "." + rest
    ensures at + |g| < |s| && s[at..at + |g|] == g && s[at + |g|] == '.' && s[at + |g| + 1..] == rest
  {
    var tail := s[at..];
    assert tail[..|g|] == g && tail[|g|] == '.' && tail[|g| + 1..] == rest;
  }

  lemma JoinAt(s: string, gs: seq<string>, at: nat) returns (e: nat)
    requires at <= |s| && s[at..] == Join(gs) && 1 <= |gs| && Group(gs[0])
    ensures at < e <= |s| && e - at <= VERSION_DIGITS && RunEnd(s, at, 10) == e
    ensures Part(s, at) == (ValueIn(gs[0], 10), if |gs| == 1 then |s| else e + 1)
    ensures |gs| == 1 ==> e == |s|
    ensures |gs| > 1 ==> e < |s| && s[e] == '.' && s[e + 1..] == Join(gs[1..])
  {
    e := at + |gs[0]|;
    if |gs| > 1 {
      FirstGroup(s, gs[0], Join(gs[1..]), at);
    }
    GroupAt(s, gs[0], at, e);
  }

  lemma {:induction false} JoinValid(s: string, gs: seq<string>, at: nat, room: nat)
    requires at <= |s| && s[at..] == Join(gs) && 1 <= |gs| <= room
    requires forall i :: 0 <= i < |gs| ==> Group(gs[i])
    ensures ValidFrom(s, at, room)
    decreases |gs|
  {
    hide RunEnd, Join, Digits;
    var e := JoinAt(s, gs, at);
    if |gs| > 1 {
      RestGroups(gs);
      JoinValid(s, gs[1..], e + 1, room - 1);
    }
    OneGroup(s, at, room, e);
  }

  lemma RestGroups(gs: seq<string>)
    requires |gs| > 1 && forall i :: 0 <= i < |gs| ==> Group(gs[i])
    ensures forall i :: 0 <= i < |gs[1..]| ==> Group(gs[1..][i])
  {
    forall i | 0 <= i < |gs[1..]| ensures Group(gs[1..][i]) { assert Group(gs[i + 1]); }
  }

  lemma OneGroup(s: string, at: nat, room: nat, e: nat)
    requires at <= e <= |s| && RunEnd(s, at, 10) == e && 1 <= e - at <= VERSION_DIGITS
    requires e == |s| || (s[e] == '.' && room > 1 && ValidFrom(s, e + 1, room - 1))
    ensures ValidFrom(s, at, room)
  {
  }

  lemma ValueFits(g: string)
    requires Digits(g, 10) && |g| <= VERSION_DIGITS
    ensures ValueIn(g, 10) <= PART_MAX
  {
    ValueBound(g);
    assert Tens(9) == 10 * Tens(8) == 100 * Tens(7) == 1000 * Tens(6) == 10_000 * Tens(5) == 100_000 * Tens(4);
    assert Tens(4) == 10 * Tens(3) == 100 * Tens(2) == 1000 * Tens(1) == 10_000;
    TensGrow(|g|, 9);
  }

  lemma {:induction false} TensGrow(j: nat, k: nat)
    requires j <= k
    ensures Tens(j) <= Tens(k)
    decreases k
  {
    if j < k { TensGrow(j, k - 1); }
  }

  lemma {:induction false} ValidSplits(s: string, at: nat, room: nat) returns (gs: seq<string>)
    requires at <= |s| && ValidFrom(s, at, room)
    ensures s[at..] == Join(gs) && 1 <= |gs| && (room > 0 ==> |gs| <= room)
    ensures forall i :: 0 <= i < |gs| ==> Group(gs[i])
    decreases room
  {
    var e := RunEnd(s, at, 10);
    gs := [s[at..e]];
    if e == |s| {
      assert s[at..] == s[at..e];
    } else {
      var more := ValidSplits(s, e + 1, room - 1);
      gs := gs + more;
      assert gs[1..] == more && s[at..] == s[at..e] + "." + s[e + 1..];
    }
  }

  /** The reader of the grammar takes exactly one to three groups of one to
      nine digits. */
  lemma ValidExactly(s: string)
    ensures ValidFrom(s, 0, 3) <==> Valid(s)
  {
    assert s[0..] == s;
    if ValidFrom(s, 0, 3) {
      var gs := ValidSplits(s, 0, 3);
      assert Groups(gs);
    }
    if Valid(s) {
      var gs :| Groups(gs) && s == Join(gs);
      JoinValid(s, gs, 0, 3);
    }
  }

  /** The numbers of a version, a part left out being zero. */
  function Numbers(gs: seq<string>): (p: Parts)
    requires Groups(gs)
  {
    Parts(ValueIn(gs[0], 10), if |gs| > 1 then ValueIn(gs[1], 10) else 0, if |gs| > 2 then ValueIn(gs[2], 10) else 0)
  }

  lemma PastTheEnd(s: string)
    ensures Part(s, |s|) == (0, |s|)
  {
    assert s[|s|..|s|] == "";
  }

  /** No part of a version saturates: the reader takes each for its number. */
  lemma PartsAreNumbers(gs: seq<string>)
    requires Groups(gs)
    ensures PartsOf(Join(gs)) == Numbers(gs)
  {
    var s := Join(gs);
    assert s[0..] == s;
    var e := JoinAt(s, gs, 0);
    PastTheEnd(s);
    if |gs| > 1 {
      var i := Part(s, 0).1;
      var e1 := JoinAt(s, gs[1..], i);
      if |gs| > 2 {
        assert gs[1..][1..] == gs[2..];
        var e2 := JoinAt(s, gs[2..], Part(s, i).1);
      }
    }
  }

  // ---- Constraints ----

  function Bound(constraint: string): (v: string) {
    if constraint != "" && constraint[0] == '=' then constraint[1..]
    else if |constraint| >= 2 && constraint[0] == '>' && constraint[1] == '=' then constraint[2..]
    else constraint
  }

  predicate ConstraintValid(constraint: string) {
    ValidFrom(Bound(constraint), 0, 3)
  }

  /** The first version a bare constraint does not take any more. */
  function NextMajor(version: string): (s: string) {
    Spell(Part(version, 0).0 + 1) + ".0.0"
  }

  predicate Satisfies(constraint: string, version: string) {
    && ValidFrom(version, 0, 3)
    && (constraint == "" || (ConstraintValid(constraint) && Within(constraint, PartsOf(version))))
  }

  predicate Within(constraint: string, v: Parts)
    requires constraint != ""
  {
    var c := PartsOf(Bound(constraint));
    if constraint[0] == '=' then v == c
    else if |constraint| >= 2 && constraint[0] == '>' && constraint[1] == '=' then !Below(v, c)
    else !Below(v, c) && Below(v, PartsOf(NextMajor(constraint)))
  }

  method DepsSatisfies(constraint: string, version: string) returns (ok: bool)
    ensures ok <==> Satisfies(constraint, version)
  {
    ok := VersionValid(version);
    if !ok { return; }
    if constraint == "" { return true; }
    ok := VersionValid(Bound(constraint));
    if !ok { return; }
    ok := InBounds(constraint, version);
  }

  method InBounds(constraint: string, version: string) returns (ok: bool)
    requires constraint != ""
    ensures ok <==> Within(constraint, PartsOf(version))
  {
    if constraint[0] == '=' {
      var r := Compare(version, Bound(constraint));
      return r == 0;
    }
    if |constraint| >= 2 && constraint[0] == '>' && constraint[1] == '=' {
      var r := Compare(version, Bound(constraint));
      return r >= 0;
    }
    ok := BelowNextMajor(constraint, version);
    var low := Compare(version, constraint);
    ok := low >= 0 && ok;
  }

  method BelowNextMajor(constraint: string, version: string) returns (ok: bool)
    ensures ok <==> Below(PartsOf(version), PartsOf(NextMajor(constraint)))
  {
    var major, next := VersionPart(constraint, 0);
    var bound := Spell(major + 1) + ".0.0";
    assert bound == NextMajor(constraint);
    var r := Compare(version, bound);
    ok := r < 0;
  }

  /** The upper bound is exact, the one of the largest major version
      included: its ten digits saturate at the number they spell. */
  lemma NextMajorIs(gs: seq<string>)
    requires Groups(gs)
    ensures PartsOf(NextMajor(Join(gs))) == Parts(ValueIn(gs[0], 10) + 1, 0, 0)
  {
    hide RunEnd, ValueIn, Spell;
    PartsAreNumbers(gs);
    ValueFits(gs[0]);
    var head := Spell(ValueIn(gs[0], 10) + 1);
    var s := NextMajor(Join(gs));
    var h := |head|;
    assert s == head + ".0.0" && s[0..h] == head && s[h..] == ".0.0";
    assert s[h] == '.' && s[h + 1] == '0' && s[h + 2] == '.' && s[h + 3] == '0';
    RunEndIs(s, 0, 10, h);
    ZeroPart(s, h + 1, h + 2);
    ZeroPart(s, h + 3, h + 4);
  }

  lemma ZeroPart(s: string, at: nat, e: nat)
    requires at < |s| && e == at + 1 && s[at] == '0' && (e < |s| ==> s[e] == '.')
    ensures Part(s, at).0 == 0 && Part(s, at).1 == if e < |s| then e + 1 else e
  {
    assert s[at..e] == "0" && "0"[..0] == "";
    RunEndIs(s, at, 10, e);
  }

  lemma BoundOf(gs: seq<string>, operator: string)
    requires Groups(gs) && operator in {"", "=", ">="}
    ensures Bound(operator + Join(gs)) == Join(gs)
    ensures Join(gs) != "" && DigitIn(Join(gs)[0], 10) >= 0
  {
    assert DigitIn(gs[0][0], 10) >= 0;
    assert Join(gs)[0] == gs[0][0];
    assert operator == ">=" ==> (operator + Join(gs))[2..] == Join(gs);
  }

  lemma JoinedMeans(gs: seq<string>)
    requires Groups(gs)
    ensures ValidFrom(Join(gs), 0, 3) && PartsOf(Join(gs)) == Numbers(gs)
  {
    PartsAreNumbers(gs);
    assert Valid(Join(gs));
    ValidExactly(Join(gs));
  }

  lemma ExactMeans(c: string, b: string, v: string)
    requires c == "=" + b && Bound(c) == b && ValidFrom(b, 0, 3) && ValidFrom(v, 0, 3)
    ensures Satisfies(c, v) <==> PartsOf(v) == PartsOf(b)
  {
  }

  lemma LowerMeans(c: string, b: string, v: string)
    requires c == ">=" + b && Bound(c) == b && ValidFrom(b, 0, 3) && ValidFrom(v, 0, 3)
    ensures Satisfies(c, v) <==> !Below(PartsOf(v), PartsOf(b))
  {
  }

  lemma BareMeans(b: string, v: string)
    requires Bound(b) == b != "" && DigitIn(b[0], 10) >= 0 && ValidFrom(b, 0, 3) && ValidFrom(v, 0, 3)
    requires PartsOf(NextMajor(b)) == Parts(PartsOf(b).major + 1, 0, 0)
    ensures Satisfies(b, v) <==> PartsOf(v).major == PartsOf(b).major && !Below(PartsOf(v), PartsOf(b))
  {
  }

  /** What a constraint means: `=` is equality of the numbers, `>=` a lower
      bound, and a bare version the same major version from it on. */
  lemma ConstraintMeans(gs: seq<string>, vs: seq<string>)
    requires Groups(gs) && Groups(vs)
    ensures Satisfies("=" + Join(gs), Join(vs)) <==> Numbers(vs) == Numbers(gs)
    ensures Satisfies(">=" + Join(gs), Join(vs)) <==> !Below(Numbers(vs), Numbers(gs))
    ensures Satisfies(Join(gs), Join(vs)) <==>
            Numbers(vs).major == Numbers(gs).major && !Below(Numbers(vs), Numbers(gs))
  {
    var b, v := Join(gs), Join(vs);
    JoinedMeans(gs);
    JoinedMeans(vs);
    BoundOf(gs, "=");
    ExactMeans("=" + b, b, v);
    BoundOf(gs, ">=");
    LowerMeans(">=" + b, b, v);
    BoundOf(gs, "");
    assert "" + b == b;
    NextMajorIs(gs);
    BareMeans(b, v);
  }
}
