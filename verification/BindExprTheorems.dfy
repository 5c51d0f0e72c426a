/** Constant expressions as trees, their text with no parenthesis it can do
    without, and the value the evaluator gives it. */
module BindExprTheorems {
  import opened Options
  import opened CInt
  import opened BindExpr

  datatype Expr =
    | Literally(u: nat, hex: bool, longs: nat, unsigned: bool)
    | Named(name: string)
    | Before(p: Prefix, e: Expr)
    | Cast(t: IntType, e: Expr)
    | Binary(op: Op, l: Expr, r: Expr)

  /** The value of a tree; none where a name is unknown, a literal too large or
      an operation has no value. */
  function ValueOf(lookup: Lookup, e: Expr): (v: Option<Value>)
    requires forall name :: lookup(name).Some? ==> Is64(lookup(name).value.i)
    ensures v.Some? ==> Is64(v.value.i)
    decreases e
  {
    match e
    case Literally(u, hex, longs, unsigned) => Literal(Lit(u, hex, longs, unsigned))
    case Named(name) => lookup(name)
    case Before(p, x) =>
      var v := ValueOf(lookup, x);
      if v.None? then None else Some(Prefixed(p, v.value))
    case Cast(t, x) =>
      var v := ValueOf(lookup, x);
      if v.None? then None else Some(Converted(v.value, t))
    case Binary(op, l, r) =>
      var a, b := ValueOf(lookup, l), ValueOf(lookup, r);
      if a.None? || b.None? then None else Apply(op, a.value, b.value)
  }

  /** How loosely a tree binds: its level, or -1 for one that stands anywhere. */
  function LevelOf(e: Expr): (l: int)
    ensures -1 <= l <= 5
  {
    if e.Binary? then Level(e.op) else -1
  }

  function PrefixToken(p: Prefix): (t: Token)
    ensures PrefixOf(t) == Some(p)
  {
    match p
    case Minus => Operator(Sub)
    case Plus => Operator(Add)
    case Not => Tilde
  }

  /** The text of a tree where trees of at most `level` need no
      parentheses. */
  function Text(e: Expr, level: int): (toks: seq<Token>)
    decreases e, 1
  {
    if LevelOf(e) > level then [LParen] + (Bare(e) + [RParen]) else Bare(e)
  }

  /** The right operand of an operator binds more tightly than it, as the
      operators of a level group from the left. */
  function Bare(e: Expr): (toks: seq<Token>)
    decreases e, 0
  {
    match e
    case Literally(u, hex, longs, unsigned) => [Lit(u, hex, longs, unsigned)]
    case Named(name) => [Name(name)]
    case Before(p, x) => [PrefixToken(p)] + Text(x, -1)
    case Cast(t, x) => [CastTo(t)] + Text(x, -1)
    case Binary(op, l, r) => Text(l, Level(op)) + ([Operator(op)] + Text(r, Level(op) - 1))
  }

  function Max(a: nat, b: nat): (m: nat) {
    if a < b then b else a
  }

  /** The levels the evaluator enters for the text. */
  function Depth(e: Expr, level: int): (n: nat)
    decreases e, 1
  {
    if LevelOf(e) > level then 1 + BareDepth(e) else BareDepth(e)
  }

  function BareDepth(e: Expr): (n: nat)
    decreases e, 0
  {
    match e
    case Before(_, x) => 1 + Depth(x, -1)
    case Cast(_, x) => 1 + Depth(x, -1)
    case Binary(op, l, r) => Max(Depth(l, Level(op)), Depth(r, Level(op) - 1))
    case _ => 0
  }

  // ---- Tokens at a place ----

  predicate Has(toks: seq<Token>, pos: nat, s: seq<Token>) {
    pos + |s| <= |toks| && toks[pos..pos + |s|] == s
  }

  lemma HasBoth(toks: seq<Token>, pos: nat, a: seq<Token>, b: seq<Token>)
    requires Has(toks, pos, a + b)
    ensures Has(toks, pos, a) && Has(toks, pos + |a|, b)
  {
    var s := toks[pos..pos + |a + b|];
    assert s[..|a|] == a && s[|a|..] == b;
    assert toks[pos..pos + |a|] == s[..|a|];
    assert toks[pos + |a|..pos + |a| + |b|] == s[|a|..];
  }

  lemma HasHead(toks: seq<Token>, pos: nat, t: Token, rest: seq<Token>)
    requires Has(toks, pos, [t] + rest)
    ensures pos < |toks| && toks[pos] == t && Has(toks, pos + 1, rest)
  {
    HasBoth(toks, pos, [t], rest);
    assert toks[pos..pos + 1][0] == t;
  }

  /** What may follow a text of a level: no operator that binds tighter. */
  predicate Follows(toks: seq<Token>, pos: nat, level: int) {
    var t := Tok(toks, pos);
    !(t.Operator? && Level(t.op) < level)
  }

  predicate Fits(e: Expr, level: int, n: nat) {
    n + Depth(e, level) <= EVAL_DEPTH
  }

  /** The value of the text and its end, or none: where it is nested too deep,
      or the tree has no value. */
  function Reads(fits: bool, v: Option<Value>, end: nat): (r: Result) {
    if fits && v.Some? then Some((v.value, end)) else None
  }

  /** What a level makes of a value at its left: the operators that follow. */
  ghost function Onward(lookup: Lookup, toks: seq<Token>, level: int, n: nat, r: Result): (r': Result)
    requires Values(lookup) && 0 <= level <= 5 && Sound(toks, 0, r)
  {
    match r
    case None => None
    case Some((v, at)) => MoreAt(lookup, toks, level, at, n, v)
  }

  // ---- The evaluator gives a text its value ----

  /** A level takes what the level below it read, and the operators behind. */
  lemma Up(lookup: Lookup, toks: seq<Token>, level: int, pos: nat, n: nat, r: Result)
    requires Values(lookup) && 0 <= level <= 5 && pos <= |toks| && Sound(toks, 0, r)
    requires r.Some? ==> Follows(toks, r.value.1, level)
    requires if level == 0 then UnaryAt(lookup, toks, pos, n) == r
             else BinaryAt(lookup, toks, level - 1, pos, n) == Onward(lookup, toks, level - 1, n, r)
    ensures BinaryAt(lookup, toks, level, pos, n) == Onward(lookup, toks, level, n, r)
  {
  }

  lemma {:induction false} Climb(lookup: Lookup, toks: seq<Token>, level: int, pos: nat, n: nat, r: Result)
    requires Values(lookup) && 0 <= level <= 5 && pos <= |toks| && Sound(toks, 0, r)
    requires r.Some? ==> Follows(toks, r.value.1, level)
    requires UnaryAt(lookup, toks, pos, n) == r
    ensures BinaryAt(lookup, toks, level, pos, n) == Onward(lookup, toks, level, n, r)
    decreases level
  {
    if level > 0 { Climb(lookup, toks, level - 1, pos, n, r); }
    Up(lookup, toks, level, pos, n, r);
  }

  /** What one text makes of a tree: its value and its end. */
  function BareRead(lookup: Lookup, e: Expr, pos: nat, n: nat): (r: Result)
    requires forall name :: lookup(name).Some? ==> Is64(lookup(name).value.i)
  {
    Reads(n + BareDepth(e) <= EVAL_DEPTH, ValueOf(lookup, e), pos + |Bare(e)|)
  }

  function TextRead(lookup: Lookup, e: Expr, level: int, pos: nat, n: nat): (r: Result)
    requires forall name :: lookup(name).Some? ==> Is64(lookup(name).value.i)
  {
    Reads(Fits(e, level, n), ValueOf(lookup, e), pos + |Text(e, level)|)
  }

  /** An operand that needs no parentheses anywhere. */
  lemma {:induction false} ReadAlone(lookup: Lookup, e: Expr, toks: seq<Token>, pos: nat, n: nat)
    requires Values(lookup) && n <= EVAL_DEPTH && LevelOf(e) == -1 && Has(toks, pos, Bare(e))
    ensures UnaryAt(lookup, toks, pos, n) == BareRead(lookup, e, pos, n)
    decreases e, 0
  {
    if e.Literally? {
      assert Bare(e) == [Lit(e.u, e.hex, e.longs, e.unsigned)] + [];
      HasHead(toks, pos, Lit(e.u, e.hex, e.longs, e.unsigned), []);
    } else if e.Named? {
      assert Bare(e) == [Name(e.name)] + [];
      HasHead(toks, pos, Name(e.name), []);
    } else {
      ReadPrefix(lookup, e, toks, pos, n);
    }
  }

  lemma {:induction false} ReadPrefix(lookup: Lookup, e: Expr, toks: seq<Token>, pos: nat, n: nat)
    requires Values(lookup) && n <= EVAL_DEPTH && (e.Before? || e.Cast?) && Has(toks, pos, Bare(e))
    ensures UnaryAt(lookup, toks, pos, n) == BareRead(lookup, e, pos, n)
    decreases e, 0, 0
  {
    var first := if e.Before? then PrefixToken(e.p) else CastTo(e.t);
    HasHead(toks, pos, first, Text(e.e, -1));
    if n < EVAL_DEPTH {
      ReadUnary(lookup, e.e, toks, pos + 1, n + 1);
      Prefixing(lookup, e, toks, pos, n, TextRead(lookup, e.e, -1, pos + 1, n + 1));
    }
  }

  lemma Prefixing(lookup: Lookup, e: Expr, toks: seq<Token>, pos: nat, n: nat, x: Result)
    requires Values(lookup) && n < EVAL_DEPTH && (e.Before? || e.Cast?) && pos < |toks|
    requires toks[pos] == if e.Before? then PrefixToken(e.p) else CastTo(e.t)
    requires Sound(toks, 0, x) && UnaryAt(lookup, toks, pos + 1, n + 1) == x
    requires x == TextRead(lookup, e.e, -1, pos + 1, n + 1)
    ensures UnaryAt(lookup, toks, pos, n) == BareRead(lookup, e, pos, n)
  {
    if e.Cast? { assert UnaryAt(lookup, toks, pos, n) == PrimaryAt(lookup, toks, pos, n); }
  }

  /** An operand that stands alone or in parentheses. */
  lemma {:induction false} ReadUnary(lookup: Lookup, e: Expr, toks: seq<Token>, pos: nat, n: nat)
    requires Values(lookup) && n <= EVAL_DEPTH && Has(toks, pos, Text(e, -1))
    ensures UnaryAt(lookup, toks, pos, n) == TextRead(lookup, e, -1, pos, n)
    decreases e, 11
  {
    hide UnaryAt, BinaryAt, ValueOf;
    if e.Binary? { ReadParenthesised(lookup, e, toks, pos, n); } else { ReadAlone(lookup, e, toks, pos, n); }
  }

  /** What stands between parentheses, one level deeper. */
  lemma Parenthesising(lookup: Lookup, toks: seq<Token>, pos: nat, n: nat, x: Result)
    requires Values(lookup) && pos < |toks| && toks[pos] == LParen && Sound(toks, 0, x)
    requires n < EVAL_DEPTH ==> BinaryAt(lookup, toks, 5, pos + 1, n + 1) == x
    requires x.Some? ==> x.value.1 < |toks| && toks[x.value.1] == RParen
    ensures UnaryAt(lookup, toks, pos, n) ==
            if n < EVAL_DEPTH && x.Some? then Some((x.value.0, x.value.1 + 1)) else None
  {
    hide BinaryAt;
    assert UnaryAt(lookup, toks, pos, n) == PrimaryAt(lookup, toks, pos, n);
  }

  lemma {:induction false} ReadParenthesised(lookup: Lookup, e: Expr, toks: seq<Token>, pos: nat, n: nat)
    requires Values(lookup) && n <= EVAL_DEPTH && e.Binary? && Has(toks, pos, [LParen] + (Bare(e) + [RParen]))
    ensures UnaryAt(lookup, toks, pos, n) ==
            Reads(n + 1 + BareDepth(e) <= EVAL_DEPTH, ValueOf(lookup, e), pos + |Bare(e)| + 2)
    decreases e, 10
  {
    hide UnaryAt, BinaryAt, Bare, ValueOf, BareDepth;
    HasHead(toks, pos, LParen, Bare(e) + [RParen]);
    HasBoth(toks, pos + 1, Bare(e), [RParen]);
    HasHead(toks, pos + 1 + |Bare(e)|, RParen, []);
    var x := Reads(n + 1 + BareDepth(e) <= EVAL_DEPTH, ValueOf(lookup, e), pos + 1 + |Bare(e)|);
    if n < EVAL_DEPTH { ReadBare(lookup, e, toks, 5, pos + 1, n + 1); }
    Parenthesising(lookup, toks, pos, n, x);
  }

  /** A tree that needs no parenthesis at a level, read by that level. */
  lemma {:induction false} ReadBare(lookup: Lookup, e: Expr, toks: seq<Token>, level: int, pos: nat, n: nat)
    requires Values(lookup) && 0 <= level <= 5 && LevelOf(e) <= level && n <= EVAL_DEPTH
    requires Has(toks, pos, Bare(e)) && Follows(toks, pos + |Bare(e)|, level)
    ensures Sound(toks, 0, BareRead(lookup, e, pos, n))
    ensures BinaryAt(lookup, toks, level, pos, n) == Onward(lookup, toks, level, n, BareRead(lookup, e, pos, n))
    decreases e, 1 + level
  {
    if LevelOf(e) == -1 {
      ReadAlone(lookup, e, toks, pos, n);
      Climb(lookup, toks, level, pos, n, BareRead(lookup, e, pos, n));
    } else if LevelOf(e) < level {
      ReadBare(lookup, e, toks, level - 1, pos, n);
      Up(lookup, toks, level, pos, n, BareRead(lookup, e, pos, n));
    } else {
      ReadBinary(lookup, e, toks, pos, n);
    }
  }

  /** A text of a level, read by it. */
  lemma {:induction false} ReadText(lookup: Lookup, e: Expr, toks: seq<Token>, level: int, pos: nat, n: nat)
    requires Values(lookup) && 0 <= level <= 5 && n <= EVAL_DEPTH
    requires Has(toks, pos, Text(e, level)) && Follows(toks, pos + |Text(e, level)|, level)
    ensures Sound(toks, 0, TextRead(lookup, e, level, pos, n))
    ensures BinaryAt(lookup, toks, level, pos, n) == Onward(lookup, toks, level, n, TextRead(lookup, e, level, pos, n))
    decreases e, 12
  {
    hide UnaryAt, BinaryAt, Bare, ValueOf;
    if LevelOf(e) <= level {
      ReadBare(lookup, e, toks, level, pos, n);
    } else {
      ReadParenthesised(lookup, e, toks, pos, n);
      Climb(lookup, toks, level, pos, n, TextRead(lookup, e, level, pos, n));
    }
  }

  /** An operator between the texts of its operands, read by its level. */
  lemma {:induction false} ReadBinary(lookup: Lookup, e: Expr, toks: seq<Token>, pos: nat, n: nat)
    requires Values(lookup) && e.Binary? && n <= EVAL_DEPTH
    requires Has(toks, pos, Bare(e)) && Follows(toks, pos + |Bare(e)|, Level(e.op))
    ensures Sound(toks, 0, BareRead(lookup, e, pos, n))
    ensures BinaryAt(lookup, toks, Level(e.op), pos, n) ==
            Onward(lookup, toks, Level(e.op), n, BareRead(lookup, e, pos, n))
    decreases e, 0
  {
    hide UnaryAt, BinaryAt, ValueOf, Text;
    var k: int := Level(e.op);
    var at := BinarySplits(e, k, toks, pos);
    ReadText(lookup, e.l, toks, k, pos, n);
    ReadRight(lookup, e.r, toks, k, at + 1, n);
    var a, b := TextRead(lookup, e.l, k, pos, n), TextRead(lookup, e.r, k - 1, at + 1, n);
    OneOperator(lookup, toks, e.op, pos, at, n, a, b);
    CombinedIs(lookup, e, k, pos, at, n);
  }

  lemma BinarySplits(e: Expr, k: int, toks: seq<Token>, pos: nat) returns (at: nat)
    requires e.Binary? && k == Level(e.op) && Has(toks, pos, Bare(e))
    ensures at == pos + |Text(e.l, k)| && at < |toks| && toks[at] == Operator(e.op)
    ensures Has(toks, pos, Text(e.l, k)) && Has(toks, at + 1, Text(e.r, k - 1))
    ensures pos + |Bare(e)| == at + 1 + |Text(e.r, k - 1)|
  {
    var left, right := Text(e.l, k), Text(e.r, k - 1);
    at := pos + |left|;
    HasBoth(toks, pos, left, [Operator(e.op)] + right);
    HasHead(toks, at, Operator(e.op), right);
  }

  lemma CombinedIs(lookup: Lookup, e: Expr, k: int, pos: nat, at: nat, n: nat)
    requires Values(lookup) && e.Binary? && k == Level(e.op) && at == pos + |Text(e.l, k)|
    ensures BareRead(lookup, e, pos, n) ==
            Combined(e.op, TextRead(lookup, e.l, k, pos, n), TextRead(lookup, e.r, k - 1, at + 1, n))
  {
    hide Apply, Depth, Text;
    assert BareDepth(e) == Max(Depth(e.l, k), Depth(e.r, k - 1));
    assert pos + |Bare(e)| == at + 1 + |Text(e.r, k - 1)|;
  }

  /** The right operand ends where an operator of its own level would go on. */
  lemma {:induction false} ReadRight(lookup: Lookup, e: Expr, toks: seq<Token>, level: int, pos: nat, n: nat)
    requires Values(lookup) && 0 <= level <= 5 && n <= EVAL_DEPTH
    requires Has(toks, pos, Text(e, level - 1)) && Follows(toks, pos + |Text(e, level - 1)|, level)
    ensures BinaryAt(lookup, toks, level - 1, pos, n) == TextRead(lookup, e, level - 1, pos, n)
    decreases e, 13
  {
    if level == 0 {
      ReadUnary(lookup, e, toks, pos, n);
    } else {
      ReadText(lookup, e, toks, level - 1, pos, n);
    }
  }

  /** Two operands put together by an operator. */
  function Combined(op: Op, a: Result, b: Result): (r: Result)
    requires (a.Some? ==> Is64(a.value.0.i)) && (b.Some? ==> Is64(b.value.0.i))
  {
    if a.None? || b.None? then None
    else
      var v := Apply(op, a.value.0, b.value.0);
      if v.None? then None else Some((v.value, b.value.1))
  }

  lemma OneOperator(lookup: Lookup, toks: seq<Token>, op: Op, pos: nat, at: nat, n: nat, a: Result, b: Result)
    requires Values(lookup) && pos <= at < |toks| && toks[at] == Operator(op)
    requires Sound(toks, 0, a) && (a.Some? ==> a.value.1 == at) && Sound(toks, 0, b)
    requires BinaryAt(lookup, toks, Level(op), pos, n) == Onward(lookup, toks, Level(op), n, a)
    requires BinaryAt(lookup, toks, Level(op) - 1, at + 1, n) == b
    ensures BinaryAt(lookup, toks, Level(op), pos, n) == Onward(lookup, toks, Level(op), n, Combined(op, a, b))
  {
  }

  /** The round trip: a tree's text has the value of the tree exactly where it
      nests no deeper than the evaluator goes, and else none. */
  lemma RoundTrip(lookup: Lookup, e: Expr, n: nat)
    requires Values(lookup)
    ensures Evaluated(lookup, Text(e, 5), n) == if Fits(e, 5, n + 1) then ValueOf(lookup, e) else None
  {
    var toks := Text(e, 5);
    TextIsSome(e, 5);
    if n < EVAL_DEPTH {
      assert toks[0..0 + |toks|] == toks;
      ReadText(lookup, e, toks, 5, 0, n + 1);
    }
  }

  lemma TextIsSome(e: Expr, level: int)
    ensures Text(e, level) != []
  {
  }
}
