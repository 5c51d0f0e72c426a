/** Parameter passing on System V AMD64, section 3.2.3 of its psABI: the
    eightbytes of an aggregate and the accounting of registers in `sysv_words`
    and `sysv` of abi.c. */
module Sysv {
  import opened Options

  const INT_ARGS := 6
  const FP_ARGS := 8

  datatype Scalar = Integer | F32 | F64

  datatype Member = Member(offset: nat, kind: Scalar)

  datatype Layout = Layout(size: nat, unaligned: bool, vector: bool, members: seq<Member>)

  datatype Param = OfScalar(kind: Scalar) | OfAggregate(agg: Layout)

  /** One eightbyte, as the type it is passed as. */
  datatype Word = I64 | Double | TwoFloats | Float

  /** How a parameter is passed: as itself, as one vector, as words in
      registers, or whole on the stack. */
  datatype Passing = Plain | Vector | Coerced(words: seq<Word>) | ByVal

  // ---- The eightbytes of an aggregate ----

  predicate Within(m: Member, k: nat) {
    m.offset / 8 == k
  }

  function CountF32(ms: seq<Member>, k: nat): (n: nat) {
    if ms == [] then 0
    else CountF32(ms[..|ms| - 1], k) + if Within(ms[|ms| - 1], k) && ms[|ms| - 1].kind.F32? then 1 else 0
  }

  predicate HasKind(ms: seq<Member>, k: nat, kind: Scalar) {
    exists i :: 0 <= i < |ms| && Within(ms[i], k) && ms[i].kind == kind
  }

  /** The class of eightbyte `k`: INTEGER where an integer lies in it, else SSE
      by the floats it holds, and none without a member. */
  function WordAt(ms: seq<Member>, k: nat): (w: Option<Word>) {
    if HasKind(ms, k, Integer) then Some(I64)
    else if HasKind(ms, k, F64) then Some(Double)
    else if HasKind(ms, k, F32) then Some(if CountF32(ms, k) > 1 then TwoFloats else Float)
    else None
  }

  function WordsUpTo(ms: seq<Member>, k: nat): (ws: seq<Word>) {
    if k == 0 then []
    else
      var w := WordAt(ms, k - 1);
      WordsUpTo(ms, k - 1) + if w.Some? then [w.value] else []
  }

  predicate InMemory(agg: Layout) {
    agg.size > 16 || agg.size == 0 || agg.unaligned
  }

  /** The words of an aggregate, or none for class MEMORY. */
  function Words(agg: Layout): (ws: Option<seq<Word>>) {
    if InMemory(agg) then None else Some(WordsUpTo(agg.members, (agg.size + 7) / 8))
  }

  function Count(ws: seq<Word>, ints: bool): (n: nat)
    ensures n <= |ws|
  {
    if ws == [] then 0 else Count(ws[..|ws| - 1], ints) + if ws[|ws| - 1].I64? == ints then 1 else 0
  }

  lemma NoKind(k: nat)
    ensures forall kind: Scalar :: !HasKind([], k, kind)
  {
  }

  method ClassOf(ms: seq<Member>, k: nat) returns (w: Option<Word>)
    ensures w == WordAt(ms, k)
  {
    hide HasKind;
    var integer, f64, f32, used := false, false, 0, false;
    var i := 0;
    assert ms[..0] == [];
    NoKind(k);
    while i < |ms|
      invariant 0 <= i <= |ms|
      invariant used <==> exists j :: 0 <= j < i && Within(ms[j], k)
      invariant integer <==> HasKind(ms[..i], k, Integer)
      invariant f64 <==> HasKind(ms[..i], k, F64)
      invariant f32 == CountF32(ms[..i], k) && (f32 > 0 <==> HasKind(ms[..i], k, F32))
    {
      assert ms[..i + 1] == ms[..i] + [ms[i]];
      KindMore(ms[..i], ms[i], k, Integer);
      KindMore(ms[..i], ms[i], k, F32);
      KindMore(ms[..i], ms[i], k, F64);
      assert (ms[..i] + [ms[i]])[..i] == ms[..i];
      if ms[i].offset / 8 == k {
        assert Within(ms[i], k);
        used := true;
        integer := integer || ms[i].kind.Integer?;
        f64 := f64 || ms[i].kind.F64?;
        f32 := f32 + if ms[i].kind.F32? then 1 else 0;
      }
      i := i + 1;
    }
    assert ms[..i] == ms;
    KindOfUsed(ms, k);
    w := if !used then None
         else Some(if integer then I64 else if f64 then Double else if f32 > 1 then TwoFloats else Float);
  }

  lemma KindMore(ms: seq<Member>, m: Member, k: nat, kind: Scalar)
    ensures HasKind(ms + [m], k, kind) <==> HasKind(ms, k, kind) || (Within(m, k) && m.kind == kind)
  {
    var more := ms + [m];
    if HasKind(ms, k, kind) {
      var i :| 0 <= i < |ms| && Within(ms[i], k) && ms[i].kind == kind;
      assert more[i] == ms[i];
    }
    if Within(m, k) && m.kind == kind { assert more[|ms|] == m; }
  }

  lemma KindOfUsed(ms: seq<Member>, k: nat)
    ensures (exists j :: 0 <= j < |ms| && Within(ms[j], k)) <==>
            HasKind(ms, k, Integer) || HasKind(ms, k, F32) || HasKind(ms, k, F64)
  {
    if exists j :: 0 <= j < |ms| && Within(ms[j], k) {
      var j :| 0 <= j < |ms| && Within(ms[j], k);
      assert HasKind(ms, k, ms[j].kind);
    }
  }

  /** The words of an aggregate and the registers of each class they need. */
  method SysvWords(agg: Layout) returns (words: Option<seq<Word>>, ints: nat, floats: nat)
    ensures words == Words(agg)
    ensures words.Some? ==> ints == Count(words.value, true) && floats == Count(words.value, false)
    ensures words.None? ==> ints == 0 && floats == 0
  {
    words, ints, floats := None, 0, 0;
    if agg.size > 16 || agg.size == 0 || agg.unaligned { return; }
    var count := (agg.size + 7) / 8;
    var ws: seq<Word> := [];
    var k := 0;
    while k < count
      invariant 0 <= k <= count && ws == WordsUpTo(agg.members, k)
      invariant ints == Count(ws, true) && floats == Count(ws, false)
    {
      var w := ClassOf(agg.members, k);
      if w.Some? {
        assert (ws + [w.value])[..|ws|] == ws;
        ws := ws + [w.value];
        ints := ints + if w.value.I64? then 1 else 0;
        floats := floats + if w.value.I64? then 0 else 1;
      } else {
        assert ws + [] == ws;
      }
      k := k + 1;
    }
    words := Some(ws);
  }

  // ---- The register file ----

  /** The registers that are still free. */
  datatype File = File(ints: nat, floats: nat)

  /** One register of a class, where one is free. */
  function Take(f: File, integer: bool): (r: Option<File>) {
    if integer then if f.ints > 0 then Some(f.(ints := f.ints - 1)) else None
    else if f.floats > 0 then Some(f.(floats := f.floats - 1)) else None
  }

  /** Every word finds a register, from the left. */
  function TakeAll(f: File, ws: seq<Word>): (r: Option<File>)
    decreases |ws|
  {
    if ws == [] then Some(f)
    else
      match Take(f, ws[0].I64?)
      case None => None
      case Some(g) => TakeAll(g, ws[1..])
  }

  /** A scalar goes to the stack where its class has no register left. */
  function AfterScalar(f: File, integer: bool): (g: File) {
    if Take(f, integer).Some? then Take(f, integer).value else f
  }

  /** How one parameter is passed with the registers left, and those left after
      it. What goes to the stack takes none. */
  function Pass(f: File, p: Param): (r: (Passing, File)) {
    match p
    case OfScalar(kind) => (Plain, AfterScalar(f, kind.Integer?))
    case OfAggregate(agg) =>
      if agg.vector then (Vector, AfterScalar(f, false))
      else
        var ws := Words(agg);
        if ws.None? || TakeAll(f, ws.value).None? then (ByVal, f)
        else (Coerced(ws.value), TakeAll(f, ws.value).value)
  }

  function PassAll(f: File, ps: seq<Param>): (r: seq<Passing>)
    decreases |ps|
  {
    if ps == [] then [] else [Pass(f, ps[0]).0] + PassAll(Pass(f, ps[0]).1, ps[1..])
  }

  /** An aggregate returned through memory passes a pointer first. */
  predicate ReturnsThrough(result: Option<Layout>) {
    result.Some? && !result.value.vector && Words(result.value).None?
  }

  function FileFor(result: Option<Layout>): (f: File) {
    File(if ReturnsThrough(result) then INT_ARGS - 1 else INT_ARGS, FP_ARGS)
  }

  /** Counters that run past the registers stand for the registers left. */
  function Left(count: nat, registers: nat): (n: nat) {
    if count < registers then registers - count else 0
  }

  lemma {:induction false} CountsAdd(w: Word, ws: seq<Word>, ints: bool)
    ensures Count([w] + ws, ints) == (if w.I64? == ints then 1 else 0) + Count(ws, ints)
    decreases |ws|
  {
    if ws == [] {
      assert [w] + ws == [w] && [w][..0] == [];
    } else {
      var all := [w] + ws;
      assert all[..|all| - 1] == [w] + ws[..|ws| - 1];
      CountsAdd(w, ws[..|ws| - 1], ints);
    }
  }

  /** Every word finds a register exactly where each class has as many left as
      the words of it, and takes as many. */
  lemma {:induction false} TakeAllCounts(f: File, ws: seq<Word>)
    ensures TakeAll(f, ws) == if Count(ws, true) <= f.ints && Count(ws, false) <= f.floats
                              then Some(File(f.ints - Count(ws, true), f.floats - Count(ws, false))) else None
    decreases |ws|
  {
    if ws != [] {
      assert ws == [ws[0]] + ws[1..];
      CountsAdd(ws[0], ws[1..], true);
      CountsAdd(ws[0], ws[1..], false);
      if Take(f, ws[0].I64?).Some? { TakeAllCounts(Take(f, ws[0].I64?).value, ws[1..]); }
    }
  }

  /** The check of the counters is the search for registers: a class that needs
      none may have run past its registers. */
  lemma CheckIsSearch(ints: nat, floats: nat, ws: seq<Word>)
    ensures var i, d := Count(ws, true), Count(ws, false);
            var f := File(Left(ints, INT_ARGS), Left(floats, FP_ARGS));
            && (TakeAll(f, ws).Some? <==> (i == 0 || ints + i <= INT_ARGS) && (d == 0 || floats + d <= FP_ARGS))
            && (TakeAll(f, ws).Some? ==>
                  TakeAll(f, ws).value == File(Left(ints + i, INT_ARGS), Left(floats + d, FP_ARGS)))
  {
    TakeAllCounts(File(Left(ints, INT_ARGS), Left(floats, FP_ARGS)), ws);
  }

  /** The classification of every parameter, with counters that never
      saturate, is the one of the register file. */
  method Classify(result: Option<Layout>, ps: seq<Param>) returns (out: seq<Passing>)
    ensures out == PassAll(FileFor(result), ps)
  {
    hide TakeAll, Words, Count, InMemory;
    var ints, floats := 0, 0;
    if result.Some? && !result.value.vector {
      var words, needInt, needFp := SysvWords(result.value);
      if words.None? { ints := 1; }
    }
    out := [];
    var i := 0;
    assert ps[0..] == ps;
    while i < |ps|
      invariant 0 <= i <= |ps|
      invariant out + PassAll(File(Left(ints, INT_ARGS), Left(floats, FP_ARGS)), ps[i..]) ==
                PassAll(FileFor(result), ps)
    {
      ghost var f := File(Left(ints, INT_ARGS), Left(floats, FP_ARGS));
      assert ps[i..][1..] == ps[i + 1..];
      var p;
      p, ints, floats := ClassifyOne(ps[i], ints, floats);
      assert (out + [p]) + PassAll(Pass(f, ps[i]).1, ps[i + 1..]) == out + PassAll(f, ps[i..]);
      out := out + [p];
      i := i + 1;
    }
    assert out + [] == out;
  }

  method ClassifyOne(p: Param, ints: nat, floats: nat) returns (passing: Passing, ints': nat, floats': nat)
    ensures (passing, File(Left(ints', INT_ARGS), Left(floats', FP_ARGS))) ==
            Pass(File(Left(ints, INT_ARGS), Left(floats, FP_ARGS)), p)
  {
    ints', floats' := ints, floats;
    match p
    case OfScalar(kind) =>
      passing := Plain;
      if kind.Integer? { ints' := ints + 1; } else { floats' := floats + 1; }
    case OfAggregate(agg) =>
      if agg.vector {
        passing := Vector;
        floats' := floats + 1;
      } else {
        var words, needInt, needFp := SysvWords(agg);
        if words.Some? { CheckIsSearch(ints, floats, words.value); }
        if words.Some? && (needInt == 0 || ints + needInt <= INT_ARGS) && (needFp == 0 || floats + needFp <= FP_ARGS) {
          passing := Coerced(words.value);
          ints', floats' := ints + needInt, floats + needFp;
        } else {
          passing := ByVal;
        }
      }
  }
}
