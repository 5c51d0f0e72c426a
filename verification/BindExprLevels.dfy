/** How the tokens of a constant expression group, by the grammar of C rather
    than by the levels of the evaluator. */
module BindExprLevels {
  import opened Options
  import opened CInt
  import opened BindExpr
  import opened BindExprTheorems

  predicate Multiplicative(op: Op) {
    op.Mul? || op.Div? || op.Mod?
  }

  predicate Additive(op: Op) {
    op.Add? || op.Sub?
  }

  predicate Shifting(op: Op) {
    op.Shl? || op.Shr?
  }

  /** Sections 6.5.5 to 6.5.12 of ISO C11: what an operand of `f` may hold
      without parentheses, on either side. */
  predicate Tighter(g: Op, f: Op) {
    match f
    case Mul => false
    case Div => false
    case Mod => false
    case Add => Multiplicative(g)
    case Sub => Multiplicative(g)
    case Shl => Multiplicative(g) || Additive(g)
    case Shr => Multiplicative(g) || Additive(g)
    case And => Multiplicative(g) || Additive(g) || Shifting(g)
    case Xor => Multiplicative(g) || Additive(g) || Shifting(g) || g.And?
    case Or => !g.Or?
  }

  /** The levels of the evaluator are those of C. */
  lemma LevelsOfC(g: Op, f: Op)
    ensures Level(g) < Level(f) <==> Tighter(g, f)
  {
  }

  /** An operation on two values, either of which may be missing. */
  function Both(op: Op, a: Option<Value>, b: Option<Value>): (v: Option<Value>)
    requires (a.Some? ==> Is64(a.value.i)) && (b.Some? ==> Is64(b.value.i))
  {
    if a.None? || b.None? then None else Apply(op, a.value, b.value)
  }

  // ---- One operator after another ----

  predicate OperatorAt(toks: seq<Token>, pos: nat, level: int) {
    Tok(toks, pos).Operator? && Level(Tok(toks, pos).op) == level
  }

  /** Levels whose operator does not stand behind a text leave it as it is. */
  lemma {:induction false} Lift(lookup: Lookup, toks: seq<Token>, low: int, high: int, pos: nat, n: nat, r: Result)
    requires Values(lookup) && -1 <= low <= high <= 5 && pos <= |toks| && BinaryAt(lookup, toks, low, pos, n) == r
    requires r.Some? ==> forall l :: low < l <= high ==> !OperatorAt(toks, r.value.1, l)
    ensures BinaryAt(lookup, toks, high, pos, n) == r
    decreases high
  {
    if low < high {
      Lift(lookup, toks, low, high - 1, pos, n, r);
      if r.Some? { assert !OperatorAt(toks, r.value.1, high); }
    }
  }

  lemma MoreOne(lookup: Lookup, toks: seq<Token>, op: Op, at: nat, n: nat, v: Value, b: Result)
    requires Values(lookup) && at < |toks| && toks[at] == Operator(op) && Is64(v.i)
    requires BinaryAt(lookup, toks, Level(op) - 1, at + 1, n) == b
    ensures MoreAt(lookup, toks, Level(op), at, n, v) ==
            if b.None? || Apply(op, v, b.value.0).None? then None
            else MoreAt(lookup, toks, Level(op), b.value.1, n, Apply(op, v, b.value.0).value)
  {
  }

  lemma MoreNone(lookup: Lookup, toks: seq<Token>, level: int, at: nat, n: nat, v: Value)
    requires Values(lookup) && 0 <= level <= 5 && at <= |toks| && Is64(v.i) && !OperatorAt(toks, at, level)
    ensures MoreAt(lookup, toks, level, at, n, v) == Some((v, at))
  {
  }

  lemma LevelStarts(lookup: Lookup, toks: seq<Token>, level: int, pos: nat, n: nat, a: Result)
    requires Values(lookup) && 0 <= level <= 5 && pos <= |toks| && BinaryAt(lookup, toks, level - 1, pos, n) == a
    ensures BinaryAt(lookup, toks, level, pos, n) ==
            if a.None? then None else MoreAt(lookup, toks, level, a.value.1, n, a.value.0)
  {
  }

  /** Two operands of one operator. */
  lemma OneOperation(lookup: Lookup, toks: seq<Token>, op: Op, pos: nat, n: nat, a: Result, b: Result)
    requires Values(lookup) && pos <= |toks| && BinaryAt(lookup, toks, Level(op) - 1, pos, n) == a
    requires a.Some? ==>
               && a.value.1 < |toks| && toks[a.value.1] == Operator(op)
               && BinaryAt(lookup, toks, Level(op) - 1, a.value.1 + 1, n) == b
    requires b.Some? ==> !OperatorAt(toks, b.value.1, Level(op)) && b.value.1 <= |toks| && Is64(b.value.0.i)
    requires a.Some? ==> Is64(a.value.0.i)
    ensures BinaryAt(lookup, toks, Level(op), pos, n) == Combined(op, a, b)
  {
    hide BinaryAt, MoreAt;
    LevelStarts(lookup, toks, Level(op), pos, n, a);
    if a.Some? {
      MoreOne(lookup, toks, op, a.value.1, n, a.value.0, b);
      if b.Some? && Apply(op, a.value.0, b.value.0).Some? {
        MoreNone(lookup, toks, Level(op), b.value.1, n, Apply(op, a.value.0, b.value.0).value);
      }
    }
  }

  /** Three operands at the places p, q and r of the text, the operators f and
      g between them, and no operator at the end. */
  ghost predicate Three(lookup: Lookup, toks: seq<Token>, f: Op, g: Op, n: nat, p: nat, q: nat, r: nat) {
    && Values(lookup) && 0 < p < q < r == |toks|
    && toks[p] == Operator(f) && toks[q] == Operator(g)
  }

  lemma OperatorsOfThree(lookup: Lookup, toks: seq<Token>, f: Op, g: Op, n: nat, p: nat, q: nat, r: nat)
    requires Three(lookup, toks, f, g, n, p, q, r)
    ensures forall l :: OperatorAt(toks, p, l) <==> l == Level(f)
    ensures forall l :: OperatorAt(toks, q, l) <==> l == Level(g)
    ensures forall l :: !OperatorAt(toks, r, l)
  {
    hide Level;
  }

  /** What the evaluator makes of an operand: a value and its end, or none. */
  ghost predicate Operand(lookup: Lookup, toks: seq<Token>, n: nat, pos: nat, v: Option<Value>, end: nat)
    requires Values(lookup) && pos <= |toks|
  {
    && (v.Some? ==> Is64(v.value.i))
    && UnaryAt(lookup, toks, pos, n) == if v.None? then None else Some((v.value, end))
  }

  function At(v: Option<Value>, end: nat): (r: Result) {
    if v.None? then None else Some((v.value, end))
  }

  /** Two operands side by side, and behind them no operator that would take
      the second. */
  lemma Pair(lookup: Lookup, toks: seq<Token>, op: Op, pos: nat, n: nat, p: nat, a: Option<Value>, end: nat,
             b: Option<Value>)
    requires Values(lookup) && pos <= p < end <= |toks| && toks[p] == Operator(op)
    requires Operand(lookup, toks, n, pos, a, p) && Operand(lookup, toks, n, p + 1, b, end)
    requires forall l :: l <= Level(op) ==> !OperatorAt(toks, end, l)
    ensures BinaryAt(lookup, toks, Level(op), pos, n) == At(Both(op, a, b), end)
  {
    hide BinaryAt, UnaryAt, Apply, Level;
    Lowest(lookup, toks, pos, n);
    Lowest(lookup, toks, p + 1, n);
    assert forall l :: OperatorAt(toks, p, l) <==> l == Level(op);
    Lift(lookup, toks, -1, Level(op) - 1, pos, n, At(a, p));
    Lift(lookup, toks, -1, Level(op) - 1, p + 1, n, At(b, end));
    OneOperation(lookup, toks, op, pos, n, At(a, p), At(b, end));
  }

  /** An operator between what its level has read at its left and at its
      right, with nothing behind. */
  lemma Outer(lookup: Lookup, toks: seq<Token>, op: Op, n: nat, low: int, p: nat, a: Option<Value>, low': int,
              b: Option<Value>)
    requires Values(lookup) && 0 < p < |toks| && toks[p] == Operator(op)
    requires -1 <= low < Level(op) && -1 <= low' < Level(op)
    requires (a.Some? ==> Is64(a.value.i)) && (b.Some? ==> Is64(b.value.i))
    requires BinaryAt(lookup, toks, low, 0, n) == At(a, p) && BinaryAt(lookup, toks, low', p + 1, n) == At(b, |toks|)
    ensures BinaryAt(lookup, toks, 5, 0, n) == At(Both(op, a, b), |toks|)
  {
    hide BinaryAt, Apply, Level;
    assert forall l :: OperatorAt(toks, p, l) <==> l == Level(op);
    assert forall l :: !OperatorAt(toks, |toks|, l);
    Lift(lookup, toks, low, Level(op) - 1, 0, n, At(a, p));
    Lift(lookup, toks, low', Level(op) - 1, p + 1, n, At(b, |toks|));
    OneOperation(lookup, toks, op, 0, n, At(a, p), At(b, |toks|));
    Lift(lookup, toks, Level(op), 5, 0, n, At(Both(op, a, b), |toks|));
  }

  lemma Lowest(lookup: Lookup, toks: seq<Token>, pos: nat, n: nat)
    requires Values(lookup) && pos <= |toks|
    ensures BinaryAt(lookup, toks, -1, pos, n) == UnaryAt(lookup, toks, pos, n)
  {
  }

  lemma GroupedRight(lookup: Lookup, toks: seq<Token>, f: Op, g: Op, n: nat, p: nat, q: nat, r: nat,
                     a: Option<Value>, b: Option<Value>, c: Option<Value>)
    requires Three(lookup, toks, f, g, n, p, q, r) && Level(g) < Level(f)
    requires Operand(lookup, toks, n, 0, a, p) && Operand(lookup, toks, n, p + 1, b, q)
    requires Operand(lookup, toks, n, q + 1, c, r)
    ensures BinaryAt(lookup, toks, 5, 0, n) == At(Both(f, a, Both(g, b, c)), r)
  {
    hide BinaryAt, UnaryAt, Apply, OperatorAt, Level;
    OperatorsOfThree(lookup, toks, f, g, n, p, q, r);
    Pair(lookup, toks, g, p + 1, n, q, b, r, c);
    Lowest(lookup, toks, 0, n);
    Outer(lookup, toks, f, n, -1, p, a, Level(g), Both(g, b, c));
  }

  lemma GroupedLeft(lookup: Lookup, toks: seq<Token>, f: Op, g: Op, n: nat, p: nat, q: nat, r: nat,
                    a: Option<Value>, b: Option<Value>, c: Option<Value>)
    requires Three(lookup, toks, f, g, n, p, q, r) && Level(f) < Level(g)
    requires Operand(lookup, toks, n, 0, a, p) && Operand(lookup, toks, n, p + 1, b, q)
    requires Operand(lookup, toks, n, q + 1, c, r)
    ensures BinaryAt(lookup, toks, 5, 0, n) == At(Both(g, Both(f, a, b), c), r)
  {
    hide BinaryAt, UnaryAt, Apply, OperatorAt, Level;
    OperatorsOfThree(lookup, toks, f, g, n, p, q, r);
    Pair(lookup, toks, f, 0, n, p, a, q, b);
    Lowest(lookup, toks, q + 1, n);
    Outer(lookup, toks, g, n, Level(f), q, Both(f, a, b), -1, c);
  }

  lemma GroupedAlike(lookup: Lookup, toks: seq<Token>, f: Op, g: Op, n: nat, p: nat, q: nat, r: nat,
                     a: Option<Value>, b: Option<Value>, c: Option<Value>)
    requires Three(lookup, toks, f, g, n, p, q, r) && Level(f) == Level(g)
    requires Operand(lookup, toks, n, 0, a, p) && Operand(lookup, toks, n, p + 1, b, q)
    requires Operand(lookup, toks, n, q + 1, c, r)
    ensures BinaryAt(lookup, toks, 5, 0, n) == At(Both(g, Both(f, a, b), c), r)
  {
    hide BinaryAt, UnaryAt, Apply, MoreAt, OperatorAt, Level;
    OperatorsOfThree(lookup, toks, f, g, n, p, q, r);
    var l: int := Level(f);
    Lowest(lookup, toks, 0, n);
    Lowest(lookup, toks, p + 1, n);
    Lowest(lookup, toks, q + 1, n);
    Lift(lookup, toks, -1, l - 1, 0, n, At(a, p));
    Lift(lookup, toks, -1, l - 1, p + 1, n, At(b, q));
    Lift(lookup, toks, -1, l - 1, q + 1, n, At(c, r));
    LevelStarts(lookup, toks, l, 0, n, At(a, p));
    if a.Some? {
      MoreOne(lookup, toks, f, p, n, a.value, At(b, q));
      var ab := Both(f, a, b);
      if ab.Some? {
        MoreOne(lookup, toks, g, q, n, ab.value, At(c, r));
        if Both(g, ab, c).Some? { MoreNone(lookup, toks, l, r, n, Both(g, ab, c).value); }
      }
    }
    Lift(lookup, toks, l, 5, 0, n, At(Both(g, Both(f, a, b), c), r));
  }

  lemma OperandsStand(toks: seq<Token>, x: seq<Token>, f: Op, y: seq<Token>, g: Op, z: seq<Token>, p: nat, q: nat)
    requires toks == x + ([Operator(f)] + (y + ([Operator(g)] + z))) && x != [] && y != [] && z != []
    requires p == |x| && q == p + 1 + |y|
    ensures 0 < p < q < |toks| && toks[p] == Operator(f) && toks[q] == Operator(g)
    ensures Has(toks, 0, x) && Has(toks, p + 1, y) && Has(toks, q + 1, z) && q + 1 + |z| == |toks|
  {
    hide Has;
    assert Has(toks, 0, toks) by { HasAll(toks); }
    HasBoth(toks, 0, x, [Operator(f)] + (y + ([Operator(g)] + z)));
    HasHead(toks, p, Operator(f), y + ([Operator(g)] + z));
    HasBoth(toks, p + 1, y, [Operator(g)] + z);
    HasHead(toks, q, Operator(g), z);
  }

  lemma HasAll(toks: seq<Token>)
    ensures Has(toks, 0, toks)
  {
    assert toks[0..|toks|] == toks;
  }

  /** The values of three operands of a text, none for one that is nested too
      deep. */
  lemma OperandsOf(lookup: Lookup, x: Expr, f: Op, y: Expr, g: Op, z: Expr, n: nat, toks: seq<Token>, p: nat, q: nat)
      returns (a: Option<Value>, b: Option<Value>, c: Option<Value>)
    requires Values(lookup) && n <= 128
    requires toks == Text(x, -1) + ([Operator(f)] + (Text(y, -1) + ([Operator(g)] + Text(z, -1))))
    requires p == |Text(x, -1)| && q == p + 1 + |Text(y, -1)|
    ensures Three(lookup, toks, f, g, n, p, q, |toks|)
    ensures a == Within(lookup, x, n)
    ensures b == Within(lookup, y, n)
    ensures c == Within(lookup, z, n)
    ensures Operand(lookup, toks, n, 0, a, p) && Operand(lookup, toks, n, p + 1, b, q)
    ensures Operand(lookup, toks, n, q + 1, c, |toks|)
  {
    hide UnaryAt, Text, Within, Has, Operand;
    TextIsSome(x, -1);
    TextIsSome(y, -1);
    TextIsSome(z, -1);
    OperandsStand(toks, Text(x, -1), f, Text(y, -1), g, Text(z, -1), p, q);
    a := OneOperand(lookup, x, toks, 0, n, p);
    b := OneOperand(lookup, y, toks, p + 1, n, q);
    c := OneOperand(lookup, z, toks, q + 1, n, |toks|);
  }

  lemma OneOperand(lookup: Lookup, x: Expr, toks: seq<Token>, pos: nat, n: nat, end: nat) returns (a: Option<Value>)
    requires Values(lookup) && n <= 128 && Has(toks, pos, Text(x, -1)) && end == pos + |Text(x, -1)|
    ensures a == Within(lookup, x, n)
    ensures Operand(lookup, toks, n, pos, a, end)
  {
    hide UnaryAt, Text, ValueOf, Depth;
    ReadUnary(lookup, x, toks, pos, n);
    a := Within(lookup, x, n);
  }

  /** What three operands and two operators give: the tighter operator takes
      the middle one, and of two that bind alike the left one does. */
  function Grouping(f: Op, g: Op, a: Option<Value>, b: Option<Value>, c: Option<Value>): (v: Option<Value>)
    requires (a.Some? ==> Is64(a.value.i)) && (b.Some? ==> Is64(b.value.i)) && (c.Some? ==> Is64(c.value.i))
  {
    if Tighter(g, f) then Both(f, a, Both(g, b, c)) else Both(g, Both(f, a, b), c)
  }

  /** The value of an operand, none where it nests past the 128 levels. */
  function Within(lookup: Lookup, x: Expr, n: nat): (a: Option<Value>)
    requires forall name :: lookup(name).Some? ==> Is64(lookup(name).value.i)
    ensures a.Some? ==> Is64(a.value.i)
  {
    if n + Depth(x, -1) > 128 then None else ValueOf(lookup, x)
  }

  /** Three operands, each of them any tree, in parentheses where it is an
      operation. */
  lemma Grouped(lookup: Lookup, x: Expr, f: Op, y: Expr, g: Op, z: Expr, n: nat)
    requires Values(lookup) && n < 128
    ensures Evaluated(lookup, Text(x, -1) + ([Operator(f)] + (Text(y, -1) + ([Operator(g)] + Text(z, -1)))), n) ==
            Grouping(f, g, Within(lookup, x, n + 1), Within(lookup, y, n + 1), Within(lookup, z, n + 1))
  {
    hide UnaryAt, BinaryAt, Text, Within, Evaluated, Operand, Three, Grouping;
    var toks := Text(x, -1) + ([Operator(f)] + (Text(y, -1) + ([Operator(g)] + Text(z, -1))));
    var p := |Text(x, -1)|;
    var q := p + 1 + |Text(y, -1)|;
    var a, b, c := OperandsOf(lookup, x, f, y, g, z, n + 1, toks, p, q);
    GroupedTokens(lookup, toks, f, g, n, p, q, a, b, c);
  }

  lemma GroupedTokens(lookup: Lookup, toks: seq<Token>, f: Op, g: Op, n: nat, p: nat, q: nat, a: Option<Value>,
                      b: Option<Value>, c: Option<Value>)
    requires n < 128 && Three(lookup, toks, f, g, n + 1, p, q, |toks|)
    requires Operand(lookup, toks, n + 1, 0, a, p) && Operand(lookup, toks, n + 1, p + 1, b, q)
    requires Operand(lookup, toks, n + 1, q + 1, c, |toks|)
    ensures Evaluated(lookup, toks, n) == Grouping(f, g, a, b, c)
  {
    hide BinaryAt, UnaryAt, Tighter, Level, Both, Evaluated, Tok, At, Apply;
    LevelsOfC(g, f);
    var whole := Grouping(f, g, a, b, c);
    assert BinaryAt(lookup, toks, 5, 0, n + 1) == At(whole, |toks|) by {
      if Level(g) < Level(f) {
        GroupedRight(lookup, toks, f, g, n + 1, p, q, |toks|, a, b, c);
      } else if Level(f) < Level(g) {
        GroupedLeft(lookup, toks, f, g, n + 1, p, q, |toks|, a, b, c);
      } else {
        GroupedAlike(lookup, toks, f, g, n + 1, p, q, |toks|, a, b, c);
      }
    }
    WholeText(lookup, toks, n, whole);
  }

  lemma WholeText(lookup: Lookup, toks: seq<Token>, n: nat, v: Option<Value>)
    requires Values(lookup) && toks != [] && n < 128 && BinaryAt(lookup, toks, 5, 0, n + 1) == At(v, |toks|)
    ensures Evaluated(lookup, toks, n) == v
  {
    hide BinaryAt;
  }

  /** A sign or a complement before an operand, in numbers. */
  lemma PrefixedOperand(lookup: Lookup, t: Token, x: Expr, n: nat)
    requires Values(lookup) && n < 128 && (t == Operator(Sub) || t == Operator(Add) || t == Tilde)
    ensures var (v, r) := (Within(lookup, x, n + 2), Evaluated(lookup, [t] + Text(x, -1), n));
            && (r.Some? <==> v.Some?)
            && (r.Some? ==>
                  var (m, k) := (Meaning(v.value.t, v.value.i), Meaning(v.value.t, r.value.i));
                  && r.value.t == v.value.t
                  && (t == Operator(Sub) ==> k == Reduced(v.value.t, -m)) && (t == Operator(Add) ==> k == m)
                  && (t == Tilde ==> k == Reduced(v.value.t, -m - 1)))
  {
    hide Text, ValueOf, Evaluated, Meaning, Reduced, BareDepth;
    var p := if t.Tilde? then Not else if t.op.Sub? then Minus else Plus;
    var e := Before(p, x);
    RoundTrip(lookup, e, n);
    OneBefore(lookup, e, n);
    var v := Within(lookup, x, n + 2);
    if v.Some? { PrefixedMeans(p, v.value); }
  }

  lemma OneBefore(lookup: Lookup, e: Expr, n: nat)
    requires Values(lookup) && (e.Before? || e.Cast?)
    ensures Text(e, 5) == [if e.Before? then PrefixToken(e.p) else CastTo(e.t)] + Text(e.e, -1)
    ensures Fits(e, 5, n + 1) <==> n + 2 + Depth(e.e, -1) <= 128
    ensures ValueOf(lookup, e) ==
            var v := ValueOf(lookup, e.e);
            if v.None? then None else Some(if e.Before? then Prefixed(e.p, v.value) else Converted(v.value, e.t))
  {
    assert LevelOf(e) == -1 && Text(e, 5) == Bare(e) && Depth(e, 5) == BareDepth(e);
    if e.Before? { assert BareDepth(e) == 1 + Depth(e.e, -1); } else { assert BareDepth(e) == 1 + Depth(e.e, -1); }
  }

  /** A cast before an operand, in numbers. */
  lemma CastOperand(lookup: Lookup, t: IntType, x: Expr, n: nat)
    requires Values(lookup) && n < 128
    ensures var (v, r) := (Within(lookup, x, n + 2), Evaluated(lookup, [CastTo(t)] + Text(x, -1), n));
            && (r.Some? <==> v.Some?)
            && (r.Some? ==> r.value.t == t && Meaning(t, r.value.i) == Reduced(t, Meaning(v.value.t, v.value.i)))
  {
    hide Text, ValueOf, Evaluated, Meaning, Reduced, BareDepth;
    var e := Cast(t, x);
    RoundTrip(lookup, e, n);
    OneBefore(lookup, e, n);
    var v := Within(lookup, x, n + 2);
    if v.Some? { ConvertedMeans(v.value, t); }
  }

  // ---- Types ----

  /** The types of the usual conversions, the weakest first. */
  const RANKS := [CInt, CUint, CLong, CUlong, CLonglong, CUlonglong]

  lemma RankIs(i: nat)
    requires i < 6
    ensures |RANKS| == 6 && Rank(RANKS[i]) == i && OfRank(i) == RANKS[i]
  {
  }

  lemma RankBound(t: IntType)
    ensures Rank(t) < 6
  {
  }

  lemma NoRank(a: IntType)
    requires a !in RANKS
    ensures Rank(a) == 0
  {
    assert RANKS[0] == CInt && RANKS[1] == CUint && RANKS[2] == CLong && RANKS[3] == CUlong;
    assert RANKS[4] == CLonglong && RANKS[5] == CUlonglong;
  }

  /** Section 6.3.1.8 of ISO C11 as far as the evaluator follows it: of two
      types of the list the one further on, and any other type counts as
      int. */
  lemma CommonIs(a: IntType, b: IntType)
    ensures forall i, j :: 0 <= i <= j < |RANKS| && a == RANKS[i] && b == RANKS[j] ==>
              Common(a, b) == b && Common(b, a) == b
    ensures a !in RANKS ==> Common(a, b) == Common(CInt, b) && Common(b, a) == Common(b, CInt)
    ensures Common(a, b) in RANKS
  {
    hide Rank, OfRank, InRank;
    forall i, j | 0 <= i <= j < |RANKS| && a == RANKS[i] && b == RANKS[j]
      ensures Common(a, b) == b && Common(b, a) == b
    {
      RankIs(i);
      RankIs(j);
    }
    RankIs(0);
    if a !in RANKS { NoRank(a); }
    RankBound(a);
    RankBound(b);
    RankIs(if Rank(a) > Rank(b) then Rank(a) else Rank(b));
  }

  /** The type of a literal: that of its suffix up to 31 bits; up to 32 bits the
      unsigned and the hexadecimal ones keep to 32, but for a suffix of one l;
      past that long long, and unsigned where the suffix or the size says so.
      More than two l count as none. */
  lemma LiteralType(lit: Token)
    requires lit.Lit?
    ensures Literal(lit).None? <==> lit.u > 0xffff_ffff_ffff_ffff
    ensures var (u, t) := (lit.u, if Literal(lit).None? then CSize else Literal(lit).value.t);
            var longs := if lit.longs <= 2 then lit.longs else 0;
            && (u <= 0x7fff_ffff ==>
                  t == if lit.unsigned then [CUint, CUlong, CUlonglong][longs]
                       else [CInt, CLong, CLonglong][longs])
            && (0x7fff_ffff < u <= 0xffff_ffff ==>
                  t == if lit.unsigned then [CUint, CUlong, CUlonglong][longs]
                       else if lit.hex then [CUint, CLong, CLonglong][longs] else CLonglong)
            && (0xffff_ffff < u <= 0x7fff_ffff_ffff_ffff ==> t == if lit.unsigned then CUlonglong else CLonglong)
            && (0x7fff_ffff_ffff_ffff < u <= 0xffff_ffff_ffff_ffff ==> t == CUlonglong)
  {
  }

  /** The numbers each type holds. */
  lemma TypeRanges(n: int)
    ensures InType(CChar, n) <==> -0x80 <= n <= 0x7f
    ensures InType(CUchar, n) <==> 0 <= n <= 0xff
    ensures InType(CShort, n) <==> -0x8000 <= n <= 0x7fff
    ensures InType(CUshort, n) <==> 0 <= n <= 0xffff
    ensures InType(CInt, n) <==> -0x8000_0000 <= n <= 0x7fff_ffff
    ensures InType(CUint, n) <==> 0 <= n <= 0xffff_ffff
    ensures forall t :: t in {CLong, CLonglong} ==>
              (InType(t, n) <==> -0x8000_0000_0000_0000 <= n <= 0x7fff_ffff_ffff_ffff)
    ensures forall t :: t in {CUlong, CUlonglong, CSize} ==> (InType(t, n) <==> 0 <= n <= 0xffff_ffff_ffff_ffff)
  {
  }
}
