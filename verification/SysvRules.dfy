/** What the System V accounting comes to for a whole list of parameters, in the
    numbers of section 3.2.3 of its psABI. */
module SysvRules {
  import opened Options
  import opened Sysv

  // ---- Eightbytes ----

  /** The member lies in the eightbyte. */
  predicate Inside(m: Member, k: nat) {
    8 * k <= m.offset < 8 * k + 8
  }

  ghost predicate Holds(ms: seq<Member>, k: nat, kind: Scalar) {
    exists i :: 0 <= i < |ms| && Inside(ms[i], k) && ms[i].kind == kind
  }

  ghost predicate HoldsTwo(ms: seq<Member>, k: nat) {
    exists i, j :: 0 <= i < j < |ms| && Inside(ms[i], k) && Inside(ms[j], k) && ms[i].kind.F32? && ms[j].kind.F32?
  }

  lemma HasKindIs(ms: seq<Member>, k: nat, kind: Scalar)
    ensures HasKind(ms, k, kind) <==> Holds(ms, k, kind)
  {
    forall i | 0 <= i < |ms| ensures Inside(ms[i], k) <==> Within(ms[i], k) {}
  }

  lemma {:induction false} CountF32Is(ms: seq<Member>, k: nat)
    ensures CountF32(ms, k) > 0 <==> Holds(ms, k, F32)
    ensures CountF32(ms, k) > 1 <==> HoldsTwo(ms, k)
    decreases |ms|
  {
    if ms != [] {
      var front, m := ms[..|ms| - 1], ms[|ms| - 1];
      CountF32Is(front, k);
      assert Inside(m, k) <==> Within(m, k);
      MoreF32(front, m, k);
      assert ms == front + [m];
    }
  }

  lemma MoreF32(ms: seq<Member>, m: Member, k: nat)
    ensures Holds(ms + [m], k, F32) <==> Holds(ms, k, F32) || (Inside(m, k) && m.kind.F32?)
    ensures HoldsTwo(ms + [m], k) <==> HoldsTwo(ms, k) || (Holds(ms, k, F32) && Inside(m, k) && m.kind.F32?)
  {
    var all := ms + [m];
    assert forall i :: 0 <= i < |ms| ==> all[i] == ms[i];
    assert all[|ms|] == m;
    if Holds(ms, k, F32) {
      var i :| 0 <= i < |ms| && Inside(ms[i], k) && ms[i].kind == F32;
      assert all[i] == ms[i];
      if Inside(m, k) && m.kind.F32? { assert 0 <= i < |ms| < |all| && Inside(all[i], k) && Inside(all[|ms|], k); }
    }
    if HoldsTwo(ms, k) {
      var i, j :| 0 <= i < j < |ms| && Inside(ms[i], k) && Inside(ms[j], k) && ms[i].kind.F32? && ms[j].kind.F32?;
      assert all[i] == ms[i] && all[j] == ms[j];
    }
    if HoldsTwo(all, k) {
      var i, j :| 0 <= i < j < |all| && Inside(all[i], k) && Inside(all[j], k) && all[i].kind.F32? && all[j].kind.F32?;
      assert all[i] == ms[i];
      if j < |ms| { assert all[j] == ms[j]; }
    }
  }

  /** The word of an eightbyte: none without a member, an integer where one lies
      in it, else a double where one does, else two floats or one. */
  lemma WordOfEightbyte(ms: seq<Member>, k: nat)
    ensures WordAt(ms, k) ==
            if Holds(ms, k, Integer) then Some(I64) else if Holds(ms, k, F64) then Some(Double)
            else if HoldsTwo(ms, k) then Some(TwoFloats) else if Holds(ms, k, F32) then Some(Float) else None
  {
    HasKindIs(ms, k, Integer);
    HasKindIs(ms, k, F64);
    HasKindIs(ms, k, F32);
    CountF32Is(ms, k);
  }

  /** The words of the one or two eightbytes of an aggregate. */
  function Eightbytes(agg: Layout): (ws: seq<Word>)
    ensures |ws| <= 2
  {
    var low, high := WordAt(agg.members, 0), if agg.size > 8 then WordAt(agg.members, 1) else None;
    (if low.Some? then [low.value] else []) + if high.Some? then [high.value] else []
  }

  /** An aggregate that may go in registers: 1 to 16 bytes, each field on its
      alignment. */
  predicate Small(agg: Layout) {
    1 <= agg.size <= 16 && !agg.unaligned
  }

  lemma WordsOfSmall(agg: Layout)
    ensures Words(agg) == if Small(agg) then Some(Eightbytes(agg)) else None
  {
    if Small(agg) {
      var ms := agg.members;
      assert WordsUpTo(ms, 0) == [];
      assert WordsUpTo(ms, 1) == if WordAt(ms, 0).Some? then [WordAt(ms, 0).value] else [];
      if agg.size <= 8 { assert (agg.size + 7) / 8 == 1; } else { assert (agg.size + 7) / 8 == 2; }
      assert WordsUpTo(ms, 1) + [] == WordsUpTo(ms, 1);
    }
  }

  // ---- A list of parameters ----

  /** The integer words among some words, and the others. */
  function Ints(ws: seq<Word>): (n: nat) {
    multiset(ws)[I64]
  }

  function Floats(ws: seq<Word>): (n: nat) {
    multiset(ws)[Double] + multiset(ws)[TwoFloats] + multiset(ws)[Float]
  }

  lemma {:induction false} CountIs(ws: seq<Word>)
    ensures Count(ws, true) == Ints(ws) && Count(ws, false) == Floats(ws)
    decreases |ws|
  {
    if ws != [] {
      var front, w := ws[..|ws| - 1], ws[|ws| - 1];
      CountIs(front);
      assert ws == front + [w];
      assert multiset(ws) == multiset(front) + multiset{w};
    }
  }

  /** The registers a parameter asks for once it is known how it is passed. */
  function IntsOf(p: Param, how: Passing): (n: nat) {
    match p
    case OfScalar(kind) => if kind.Integer? then 1 else 0
    case OfAggregate(_) => if how.Coerced? then Ints(how.words) else 0
  }

  function FloatsOf(p: Param, how: Passing): (n: nat) {
    match p
    case OfScalar(kind) => if kind.Integer? then 0 else 1
    case OfAggregate(agg) => if agg.vector then 1 else if how.Coerced? then Floats(how.words) else 0
  }

  /** How many integer registers the first `k` parameters ask for, `ints` of
      them before the list. */
  function IntsBefore(ps: seq<Param>, out: seq<Passing>, k: nat, ints: nat): (n: nat)
    requires k <= |ps| == |out|
    decreases k
  {
    if k == 0 then ints else IntsBefore(ps, out, k - 1, ints) + IntsOf(ps[k - 1], out[k - 1])
  }

  function FloatsBefore(ps: seq<Param>, out: seq<Passing>, k: nat, floats: nat): (n: nat)
    requires k <= |ps| == |out|
    decreases k
  {
    if k == 0 then floats else FloatsBefore(ps, out, k - 1, floats) + FloatsOf(ps[k - 1], out[k - 1])
  }

  /** How one parameter is passed where so many registers have been asked
      for: there are 6 for integers and 8 for the rest. */
  predicate PassedBy(p: Param, ints: nat, floats: nat, how: Passing) {
    match p
    case OfScalar(_) => how == Plain
    case OfAggregate(agg) =>
      if agg.vector then how == Vector
      else
        var ws := Eightbytes(agg);
        how ==
        if Small(agg) && (Ints(ws) == 0 || ints + Ints(ws) <= 6) && (Floats(ws) == 0 || floats + Floats(ws) <= 8)
        then Coerced(ws) else ByVal
  }

  lemma OnePassed(p: Param, ints: nat, floats: nat)
    ensures var (how, f) := Pass(File(Left(ints, INT_ARGS), Left(floats, FP_ARGS)), p);
            && PassedBy(p, ints, floats, how)
            && f == File(Left(ints + IntsOf(p, how), INT_ARGS), Left(floats + FloatsOf(p, how), FP_ARGS))
  {
    hide TakeAll, Words, Eightbytes, Count;
    if p.OfAggregate? && !p.agg.vector {
      WordsOfSmall(p.agg);
      CountIs(Eightbytes(p.agg));
      CheckIsSearch(ints, floats, Eightbytes(p.agg));
    }
  }

  lemma {:induction false} ListPassed(ps: seq<Param>, ints: nat, floats: nat, k: nat)
    requires k < |ps|
    ensures var out := PassAll(File(Left(ints, INT_ARGS), Left(floats, FP_ARGS)), ps);
            |out| == |ps| &&
            PassedBy(ps[k], IntsBefore(ps, out, k, ints), FloatsBefore(ps, out, k, floats), out[k])
    decreases |ps|
  {
    hide Pass, PassedBy, IntsOf, FloatsOf;
    var f := File(Left(ints, INT_ARGS), Left(floats, FP_ARGS));
    var out, how := PassAll(f, ps), Pass(f, ps[0]).0;
    OnePassed(ps[0], ints, floats);
    var i, d := ints + IntsOf(ps[0], how), floats + FloatsOf(ps[0], how);
    var rest := PassAll(File(Left(i, INT_ARGS), Left(d, FP_ARGS)), ps[1..]);
    assert out == [how] + rest;
    if k == 0 {
      ListLength(File(Left(i, INT_ARGS), Left(d, FP_ARGS)), ps[1..]);
    } else {
      ListPassed(ps[1..], i, d, k - 1);
      BeforeBehind(ps, out, rest, k, ints, floats);
    }
  }

  lemma {:induction false} ListLength(f: File, ps: seq<Param>)
    ensures |PassAll(f, ps)| == |ps|
    decreases |ps|
  {
    if ps != [] { ListLength(Pass(f, ps[0]).1, ps[1..]); }
  }

  lemma {:induction false} BeforeBehind(ps: seq<Param>, out: seq<Passing>, rest: seq<Passing>, k: nat, ints: nat,
                                        floats: nat)
    requires 0 < k <= |ps| == |out| && out[1..] == rest
    ensures IntsBefore(ps, out, k, ints) == IntsBefore(ps[1..], rest, k - 1, ints + IntsOf(ps[0], out[0]))
    ensures FloatsBefore(ps, out, k, floats) == FloatsBefore(ps[1..], rest, k - 1, floats + FloatsOf(ps[0], out[0]))
    decreases k
  {
    hide IntsOf, FloatsOf;
    if k > 1 {
      BeforeBehind(ps, out, rest, k - 1, ints, floats);
      assert ps[1..][k - 2] == ps[k - 1] && rest[k - 2] == out[k - 1];
    } else {
      assert IntsBefore(ps, out, 0, ints) == ints && FloatsBefore(ps, out, 0, floats) == floats;
    }
  }

  /** A result that goes back through memory takes the first integer register:
      an aggregate that is neither a vector nor small. */
  function SretInts(result: Option<Layout>): (n: nat) {
    if result.Some? && !result.value.vector && !Small(result.value) then 1 else 0
  }

  /** Every parameter of every list: scalars as they are, a vector as one, and an
      aggregate in registers exactly where it is small and each class it needs
      has registers enough after those asked for before it, else whole on the
      stack. */
  lemma PassedAll(result: Option<Layout>, ps: seq<Param>, k: nat)
    requires k < |ps|
    ensures var out := PassAll(FileFor(result), ps);
            |out| == |ps| &&
            PassedBy(ps[k], IntsBefore(ps, out, k, SretInts(result)), FloatsBefore(ps, out, k, 0), out[k])
  {
    hide PassAll, PassedBy;
    if result.Some? { WordsOfSmall(result.value); }
    ListPassed(ps, SretInts(result), 0, k);
  }

  /** Each member within the size has its word among `ws`. */
  ghost predicate Covered(agg: Layout, ws: seq<Word>) {
    forall i :: 0 <= i < |agg.members| && agg.members[i].offset < agg.size ==> MemberCovered(agg, i, ws)
  }

  predicate MemberCovered(agg: Layout, i: nat, ws: seq<Word>)
    requires i < |agg.members|
  {
    var w := WordAt(agg.members, agg.members[i].offset / 8);
    w.Some? && w.value in ws
  }

  lemma MemberIsCovered(agg: Layout, i: nat)
    requires i < |agg.members| && agg.members[i].offset < agg.size <= 16
    ensures MemberCovered(agg, i, Eightbytes(agg))
  {
    hide WordAt;
    var m := agg.members[i];
    var e := m.offset / 8;
    assert Inside(m, e) && Holds(agg.members, e, m.kind);
    WordOfEightbyte(agg.members, e);
    assert e == 0 || (e == 1 && agg.size > 8);
  }

  /** So an aggregate above 16 bytes never goes in registers, and one that does
      takes at most two words, one for each eightbyte that holds a member. */
  lemma InRegisters(result: Option<Layout>, ps: seq<Param>, k: nat)
    requires k < |ps| && ps[k].OfAggregate? && !ps[k].agg.vector
    ensures var (out, agg) := (PassAll(FileFor(result), ps), ps[k].agg);
            && |out| == |ps| && (out[k].Coerced? || out[k].ByVal?)
            && (agg.size > 16 || agg.size == 0 || agg.unaligned ==> out[k].ByVal?)
            && (out[k].Coerced? ==> |out[k].words| <= 2 && Covered(agg, out[k].words))
  {
    hide PassAll, WordAt, Eightbytes, MemberCovered, IntsBefore, FloatsBefore, Ints, Floats;
    PassedAll(result, ps, k);
    var (out, agg) := (PassAll(FileFor(result), ps), ps[k].agg);
    if out[k].Coerced? {
      forall i | 0 <= i < |agg.members| && agg.members[i].offset < agg.size
        ensures MemberCovered(agg, i, out[k].words)
      {
        MemberIsCovered(agg, i);
      }
    }
  }
}
