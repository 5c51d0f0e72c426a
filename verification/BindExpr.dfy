/** The evaluator of the integer constant expressions of a binding, in
    bindexpr.c: six levels of binary operators over prefix operators, casts,
    names and literals. The text is its tokens. */
module BindExpr {
  import opened Bits
  import opened Options
  import opened CInt

  /** An integer, in the 64 bits the evaluator keeps, and its type. */
  datatype Value = Value(i: int, t: IntType)

  datatype Token =
    | Lit(u: nat, hex: bool, longs: nat, unsigned: bool)
    | Name(name: string)
    | CastTo(t: IntType)        // `(` a type `)`
    | LParen
    | RParen
    | Tilde
    | Operator(op: Op)          // `-` and `+` stand for the prefix ones too
    | Other

  /** How many levels may be open at once, nested evaluations included. */
  const EVAL_DEPTH := 128

  const ZERO := Value(0, CInt)

  type Lookup = string -> Option<Value>

  function Tok(toks: seq<Token>, pos: nat): (t: Token) {
    if pos < |toks| then toks[pos] else Other
  }

  /** The value of a literal: the first type of C that holds it, by its base
      and its suffixes. */
  function Literal(lit: Token): (v: Option<Value>)
    requires lit.Lit?
    ensures v.Some? ==> Is64(v.value.i)
  {
    if lit.u >= TWO64 then None
    else
      var unsigned := lit.unsigned || lit.u > INT64_MAX;
      var i := Signed(lit.u);
      if lit.longs == 2 || lit.u > 0xffff_ffff || (!unsigned && !lit.hex && lit.u > 0x7fff_ffff) then
        Some(Value(i, if unsigned then CUlonglong else CLonglong))
      else if lit.longs == 1 then Some(Value(i, if unsigned then CUlong else CLong))
      else if lit.hex && lit.u > 0x7fff_ffff then Some(Value(i, CUint))
      else Some(Value(i, if unsigned then CUint else CInt))
  }

  /** A literal stands for the number it spells, in a type that holds it. */
  lemma LiteralMeansItself(lit: Token)
    requires lit.Lit? && lit.u < TWO64
    ensures var v := Literal(lit).value; Meaning(v.t, v.i) == lit.u && InType(v.t, lit.u)
  {
    var k := SignedOf(lit.u);
  }

  function Converted(v: Value, t: IntType): (r: Value)
    requires Is64(v.i)
    ensures Is64(r.i)
  {
    Value(Narrow(t, v.i), t)
  }

  /** A cast keeps the number, reduced to the type. */
  lemma ConvertedMeans(v: Value, t: IntType)
    requires Is64(v.i)
    ensures Meaning(t, Converted(v, t).i) == Reduced(t, Meaning(v.t, v.i)) && InType(t, Meaning(t, Converted(v, t).i))
  {
    NarrowMeans(t, v.i);
    var k := UnsignedOf(v.i);
    if IsUnsigned(v.t) { ReducedAgain(t, v.i, k); }
  }

  /** The rank of a type in the usual conversions; a type without one counts as
      int. */
  function Rank(t: IntType): (r: nat) {
    match t
    case CUint => 1
    case CLong => 2
    case CUlong => 3
    case CLonglong => 4
    case CUlonglong => 5
    case _ => 0
  }

  function OfRank(r: nat): (t: IntType)
    ensures InRank(t)
  {
    if r == 0 then CInt else if r == 1 then CUint else if r == 2 then CLong else if r == 3 then CUlong
    else if r == 4 then CLonglong else CUlonglong
  }

  function Common(a: IntType, b: IntType): (t: IntType)
    ensures InRank(t)
  {
    OfRank(if Rank(a) > Rank(b) then Rank(a) else Rank(b))
  }

  function Apply(op: Op, a: Value, b: Value): (r: Option<Value>)
    requires Is64(a.i) && Is64(b.i)
    ensures r.Some? ==> Is64(r.value.i)
  {
    var t := Common(a.t, b.t);
    match Compute(op, t, Converted(a, t).i, Converted(b, t).i)
    case None => None
    case Some(i) => Some(Value(i, t))
  }

  /** Sum, difference and product of two values are those of the numbers they
      stand for, reduced to the common type. */
  lemma ApplyMeans(op: Op, a: Value, b: Value)
    requires Is64(a.i) && Is64(b.i) && (op.Mul? || op.Add? || op.Sub?)
    ensures var t := Common(a.t, b.t);
            && Apply(op, a, b).Some? && Apply(op, a, b).value.t == t
            && Meaning(t, Apply(op, a, b).value.i) == Reduced(t, Exact(op, Meaning(a.t, a.i), Meaning(b.t, b.i)))
  {
    var t := Common(a.t, b.t);
    ConvertedMeans(a, t);
    ConvertedMeans(b, t);
    ArithmeticWraps(op, t, Converted(a, t).i, Converted(b, t).i);
    ReducedFirst(op, t, Meaning(a.t, a.i), Meaning(b.t, b.i));
  }

  /** The number a value stands for in the common type of an operation. */
  function Taken(t: IntType, v: Value): (n: int) {
    Reduced(t, Meaning(v.t, v.i))
  }

  /** Division and remainder fail exactly where the divisor becomes zero in
      the common type, or the quotient is the one number too large for 64 bits;
      else they drop the fraction. */
  lemma ApplyDivides(a: Value, b: Value)
    requires Is64(a.i) && Is64(b.i)
    ensures var t := Common(a.t, b.t);
            var m, n := Taken(t, a), Taken(t, b);
            && (Apply(Div, a, b).None? <==> n == 0 || (!IsUnsigned(t) && m == INT64_MIN && n == -1))
            && (Apply(Mod, a, b).None? <==> Apply(Div, a, b).None?)
            && (Apply(Div, a, b).Some? ==>
                  && Apply(Div, a, b).value.t == t && Apply(Mod, a, b).value.t == t
                  && Meaning(t, Apply(Div, a, b).value.i) == Reduced(t, Quotient(m, n))
                  && Meaning(t, Apply(Mod, a, b).value.i) == Reduced(t, Rest(m, n)))
  {
    hide Narrow, Reduced, Compute;
    var t := Common(a.t, b.t);
    ConvertedMeans(a, t);
    ConvertedMeans(b, t);
    DivisionTruncates(t, Converted(a, t).i, Converted(b, t).i);
  }

  /** Shifts take both operands to the common type, fail exactly for a count
      below 0 or above 63, and multiply, or divide rounding down. */
  lemma ApplyShifts(a: Value, b: Value)
    requires Is64(a.i) && Is64(b.i)
    ensures var t := Common(a.t, b.t);
            var m, n := Taken(t, a), Taken(t, b);
            && (Apply(Shl, a, b).Some? <==> 0 <= n < 64) && (Apply(Shr, a, b).Some? <==> 0 <= n < 64)
            && (0 <= n < 64 ==>
                  && Apply(Shl, a, b).value.t == t && Apply(Shr, a, b).value.t == t
                  && Meaning(t, Apply(Shl, a, b).value.i) == Reduced(t, m * Pow2(n))
                  && Meaning(t, Apply(Shr, a, b).value.i) == Reduced(t, m / Pow2(n)))
  {
    hide Narrow, Reduced, Compute;
    var t := Common(a.t, b.t);
    ConvertedMeans(a, t);
    ConvertedMeans(b, t);
    LeftShiftMultiplies(t, Converted(a, t).i, Converted(b, t).i);
    RightShiftFloors(t, Converted(a, t).i, Converted(b, t).i);
    CountMeans(t, Converted(b, t).i);
  }

  lemma CountMeans(t: IntType, i: int)
    requires Is64(i)
    ensures 0 <= Meaning(t, i) < 64 <==> 0 <= i < 64
    ensures 0 <= i < 64 ==> Meaning(t, i) == i
  {
    var k := UnsignedOf(i);
  }

  /** The bit operations work on every bit of the two numbers in the common
      type, and leave a number of that type. */
  lemma ApplyBitwise(op: Op, a: Value, b: Value)
    requires Is64(a.i) && Is64(b.i) && (op.And? || op.Xor? || op.Or?)
    ensures var t := Common(a.t, b.t);
            && Apply(op, a, b).Some? && Apply(op, a, b).value.t == t
            && (var r := Meaning(t, Apply(op, a, b).value.i);
                && InType(t, r)
                && BitsOf(Unsigned(r), BITS) ==
                   Zip(op, BitsOf(Unsigned(Taken(t, a)), BITS), BitsOf(Unsigned(Taken(t, b)), BITS)))
  {
    hide Narrow, Reduced, BitsOf, Zip;
    var t := Common(a.t, b.t);
    ConvertedMeans(a, t);
    ConvertedMeans(b, t);
    BitwiseByBit(op, t, Converted(a, t).i, Converted(b, t).i);
    SameBits(t, Converted(a, t).i);
    SameBits(t, Converted(b, t).i);
    SameBits(t, Apply(op, a, b).value.i);
  }

  /** The 64 bits of a value are those of the number it stands for. */
  lemma SameBits(t: IntType, i: int)
    ensures Unsigned(Meaning(t, i)) == Unsigned(i)
  {
  }

  datatype Prefix = Minus | Plus | Not

  function PrefixOf(t: Token): (p: Option<Prefix>) {
    if t == Operator(Sub) then Some(Minus) else if t == Operator(Add) then Some(Plus)
    else if t.Tilde? then Some(Not) else None
  }

  /** Prefix operators do not promote: the result keeps the type of the
      operand. */
  function Prefixed(p: Prefix, v: Value): (r: Value)
    requires Is64(v.i)
    ensures Is64(r.i)
  {
    match p
    case Minus => Value(Narrow(v.t, Signed((0 - Unsigned(v.i)) % TWO64)), v.t)
    case Plus => v
    case Not => Value(Narrow(v.t, -v.i - 1), v.t)
  }

  lemma PrefixedMeans(p: Prefix, v: Value)
    requires Is64(v.i)
    ensures Prefixed(p, v).t == v.t
    ensures p.Minus? ==> Meaning(v.t, Prefixed(p, v).i) == Reduced(v.t, -Meaning(v.t, v.i))
    ensures p.Not? ==> Meaning(v.t, Prefixed(p, v).i) == Reduced(v.t, -Meaning(v.t, v.i) - 1)
    ensures p.Plus? ==> Prefixed(p, v) == v
  {
    var k := MeaningOf(v.t, v.i);
    var n, x: int := Meaning(v.t, v.i), Unsigned(v.i);
    WrapsModulo(v.t, 0 - x, -n, -k);
    if p.Not? {
      NarrowMeans(v.t, -v.i - 1);
      var j := UnsignedOf(v.i);
      if IsUnsigned(v.t) {
        assert -v.i - 1 == -n - 1 + j * TWO64;
        ReducedAgain(v.t, -n - 1, j);
      }
    }
  }

  function Level(op: Op): (l: nat)
    ensures l <= 5
  {
    match op
    case Mul => 0
    case Div => 0
    case Mod => 0
    case Add => 1
    case Sub => 1
    case Shl => 2
    case Shr => 2
    case And => 3
    case Xor => 4
    case Or => 5
  }

  // ---- The value at a place of the text ----

  /** A value and where it ends, or none where the evaluation fails. */
  type Result = Option<(Value, nat)>

  ghost predicate Sound(toks: seq<Token>, pos: nat, r: Result) {
    r.Some? ==> pos <= r.value.1 <= |toks| && Is64(r.value.0.i)
  }

  ghost predicate Values(lookup: Lookup) {
    forall name :: lookup(name).Some? ==> Is64(lookup(name).value.i)
  }

  ghost function BinaryAt(lookup: Lookup, toks: seq<Token>, level: int, pos: nat, n: nat): (r: Result)
    requires Values(lookup) && -1 <= level <= 5 && pos <= |toks|
    ensures Sound(toks, pos, r)
    decreases |toks| - pos, level + 3
  {
    if level < 0 then UnaryAt(lookup, toks, pos, n)
    else
      match BinaryAt(lookup, toks, level - 1, pos, n)
      case None => None
      case Some((v, at)) => MoreAt(lookup, toks, level, at, n, v)
  }

  /** The operators of one level, from the left. */
  ghost function MoreAt(lookup: Lookup, toks: seq<Token>, level: int, pos: nat, n: nat, v: Value): (r: Result)
    requires Values(lookup) && 0 <= level <= 5 && pos <= |toks| && Is64(v.i)
    ensures Sound(toks, pos, r)
    decreases |toks| - pos, 0
  {
    var t := Tok(toks, pos);
    if !(t.Operator? && Level(t.op) == level) then Some((v, pos))
    else
      match BinaryAt(lookup, toks, level - 1, pos + 1, n)
      case None => None
      case Some((b, at)) =>
        match Apply(t.op, v, b)
        case None => None
        case Some(w) => MoreAt(lookup, toks, level, at, n, w)
  }

  ghost function UnaryAt(lookup: Lookup, toks: seq<Token>, pos: nat, n: nat): (r: Result)
    requires Values(lookup) && pos <= |toks|
    ensures Sound(toks, pos, r)
    decreases |toks| - pos, 1
  {
    match PrefixOf(Tok(toks, pos))
    case Some(p) =>
      if n >= EVAL_DEPTH then None
      else (
        match UnaryAt(lookup, toks, pos + 1, n + 1)
        case None => None
        case Some((v, at)) => Some((Prefixed(p, v), at)))
    case None => PrimaryAt(lookup, toks, pos, n)
  }

  ghost function PrimaryAt(lookup: Lookup, toks: seq<Token>, pos: nat, n: nat): (r: Result)
    requires Values(lookup) && pos <= |toks|
    ensures Sound(toks, pos, r)
    decreases |toks| - pos, 0
  {
    match Tok(toks, pos)
    case CastTo(t) =>
      if n >= EVAL_DEPTH then None
      else (
        match UnaryAt(lookup, toks, pos + 1, n + 1)
        case None => None
        case Some((v, at)) => Some((Converted(v, t), at)))
    case LParen =>
      if n >= EVAL_DEPTH then None
      else (
        match BinaryAt(lookup, toks, 5, pos + 1, n + 1)
        case None => None
        case Some((v, at)) => if Tok(toks, at).RParen? then Some((v, at + 1)) else None)
    case Lit(u, hex, longs, unsigned) =>
      var v := Literal(Lit(u, hex, longs, unsigned));
      if v.None? then None else Some((v.value, pos + 1))
    case Name(name) => if lookup(name).None? then None else Some((lookup(name).value, pos + 1))
    case _ => None
  }

  /** A whole expression, with `n` levels of other evaluations in progress. */
  ghost function Evaluated(lookup: Lookup, toks: seq<Token>, n: nat): (v: Option<Value>)
    requires Values(lookup)
  {
    if toks == [] || n >= EVAL_DEPTH then None
    else
      match BinaryAt(lookup, toks, 5, 0, n + 1)
      case None => None
      case Some((v, at)) => if at == |toks| then Some(v) else None
  }

  /** The evaluator: a failure stays, and the walk over the text goes on. */
  class Evaluator {
    const lookup: Lookup
    const toks: seq<Token>
    var pos: nat
    var failed: bool
    var nesting: nat

    constructor (lookup: Lookup, toks: seq<Token>, nesting: nat)
      requires Values(lookup) && nesting <= EVAL_DEPTH
      ensures Valid() && this.lookup == lookup && this.toks == toks && pos == 0 && !failed && this.nesting == nesting
    {
      this.lookup, this.toks, this.pos, this.failed, this.nesting := lookup, toks, 0, false, nesting;
    }

    ghost predicate Valid()
      reads this
    {
      Values(lookup) && pos <= |toks| && nesting <= EVAL_DEPTH
    }

    /** The walk gave what stands at the place it started from: it has failed
        where that has no value, and where it had failed before. */
    ghost predicate Gave(hadFailed: bool, r: Result, v: Value)
      reads this
    {
      && Is64(v.i)
      && (failed <==> hadFailed || r.None?)
      && (!failed ==> r == Some((v, pos)))
    }

    method Enter() returns (ok: bool)
      requires Valid()
      modifies this`nesting, this`failed
      ensures Valid() && ok == (old(nesting) < EVAL_DEPTH)
      ensures if ok then nesting == old(nesting) + 1 && failed == old(failed) else nesting == old(nesting) && failed
    {
      ok := nesting < EVAL_DEPTH;
      if ok { nesting := nesting + 1; } else { failed := true; }
    }

    method Primary() returns (v: Value)
      requires Valid()
      modifies this
      ensures Valid() && old(pos) <= pos && nesting == old(nesting)
      ensures Gave(old(failed), PrimaryAt(lookup, toks, old(pos), old(nesting)), v)
      decreases |toks| - pos, 0
    {
      v := ZERO;
      var t := Tok(toks, pos);
      match t
      case CastTo(to) =>
        pos := pos + 1;
        var ok := Enter();
        if !ok { return; }
        v := Unary();
        nesting := nesting - 1;
        v := Converted(v, to);
      case LParen =>
        pos := pos + 1;
        var ok := Enter();
        if !ok { return; }
        v := Binary(5);
        nesting := nesting - 1;
        if Tok(toks, pos).RParen? { pos := pos + 1; } else { failed := true; }
      case Lit(u, hex, longs, unsigned) =>
        pos := pos + 1;
        var w := Literal(t);
        if w.Some? { v := w.value; } else { failed := true; }
      case Name(name) =>
        pos := pos + 1;
        var w := lookup(name);
        if w.Some? { v := w.value; } else { failed := true; }
      case _ => failed := true;
    }

    method Unary() returns (v: Value)
      requires Valid()
      modifies this
      ensures Valid() && old(pos) <= pos && nesting == old(nesting)
      ensures Gave(old(failed), UnaryAt(lookup, toks, old(pos), old(nesting)), v)
      decreases |toks| - pos, 1
    {
      var p := PrefixOf(Tok(toks, pos));
      if p.None? {
        v := Primary();
        return;
      }
      pos := pos + 1;
      var ok := Enter();
      if !ok { return ZERO; }
      v := Unary();
      nesting := nesting - 1;
      v := Prefixed(p.value, v);
    }

    /** The operators of one precedence level, which group from the left. */
    method Binary(level: int) returns (v: Value)
      requires Valid() && -1 <= level <= 5
      modifies this
      ensures Valid() && old(pos) <= pos && nesting == old(nesting)
      ensures Gave(old(failed), BinaryAt(lookup, toks, level, old(pos), old(nesting)), v)
      decreases |toks| - pos, level + 3
    {
      if level < 0 {
        v := Unary();
        return;
      }
      v := Binary(level - 1);
      ghost var want := BinaryAt(lookup, toks, level, old(pos), old(nesting));
      while Tok(toks, pos).Operator? && Level(Tok(toks, pos).op) == level
        invariant Valid() && old(pos) <= pos && nesting == old(nesting) && Is64(v.i)
        invariant old(failed) ==> failed
        invariant !failed ==> !old(failed) && want == MoreAt(lookup, toks, level, pos, nesting, v)
        invariant failed ==> old(failed) || want.None?
        decreases |toks| - pos
      {
        v := OneMore(level, v, want);
      }
    }

    /** One operator and its right operand. */
    method OneMore(level: int, a: Value, ghost want: Result) returns (v: Value)
      requires Valid() && 0 <= level <= 5 && Is64(a.i)
      requires Tok(toks, pos).Operator? && Level(Tok(toks, pos).op) == level
      requires !failed ==> want == MoreAt(lookup, toks, level, pos, nesting, a)
      modifies this
      ensures Valid() && old(pos) < pos && nesting == old(nesting) && Is64(v.i) && (old(failed) ==> failed)
      ensures !failed ==> want == MoreAt(lookup, toks, level, pos, nesting, v)
      ensures failed && !old(failed) ==> want.None?
      decreases |toks| - pos, 0
    {
      var op := toks[pos].op;
      pos := pos + 1;
      var b := Binary(level - 1);
      v := a;
      if failed { return; }
      var r := Apply(op, a, b);
      if r.Some? { v := r.value; } else { failed := true; }
    }

    /** The value of the whole text, or none. The count of levels stands where
        it stood. */
    method BindEval() returns (v: Option<Value>)
      requires Valid() && pos == 0 && !failed
      modifies this
      ensures v == Evaluated(lookup, toks, old(nesting)) && nesting == old(nesting)
    {
      if |toks| == 0 { return None; }
      var ok := Enter();
      if !ok { return None; }
      var w := Binary(5);
      nesting := nesting - 1;
      v := if !failed && pos == |toks| then Some(w) else None;
    }
  }
}
