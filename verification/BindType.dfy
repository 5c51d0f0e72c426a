/** The parser of a C type spelling in bindtype.c: specifiers, then a
    declarator read inside out, under one count of nested levels that
    nested parses share. The text is its tokens. */
module BindType {
  import opened Options
  import opened BindModel

  datatype Token =
    | Word(text: string)
    | Number(value: Option<int>)    // none past the largest 64-bit integer
    | Star
    | Open
    | Close
    | LBracket
    | RBracket
    | Comma
    | Dots
    | End

  /** The levels of a spelling the parser follows, and the parameters of a
      list. */
  const TYPE_DEPTH := 256
  const PARAMS := 64

  /** The largest length an array may have. */
  const LENGTH_MAX := 0x7fff_ffff_ffff_ffff

  /** What the parser asks the header: the type of the words of a specifier
      list, qualifiers apart. */
  datatype Names = Names(base: seq<string> -> Option<Type>, isQualifier: string -> bool)

  function Tok(toks: seq<Token>, pos: nat): (t: Token) {
    if pos < |toks| then toks[pos] else End
  }

  function WordsEnd(toks: seq<Token>, pos: nat): (e: nat)
    requires pos <= |toks|
    ensures pos <= e <= |toks|
    ensures forall i :: pos <= i < e ==> toks[i].Word?
    decreases |toks| - pos
  {
    if pos < |toks| && toks[pos].Word? then WordsEnd(toks, pos + 1) else pos
  }

  function Texts(words: seq<Token>): (r: seq<string>)
    requires forall i :: 0 <= i < |words| ==> words[i].Word?
    ensures |r| == |words|
  {
    seq(|words|, i requires 0 <= i < |words| => words[i].text)
  }

  function SkipQualifiers(w: Names, toks: seq<Token>, pos: nat): (e: nat)
    requires pos <= |toks|
    ensures pos <= e <= |toks|
    decreases |toks| - pos
  {
    if pos < |toks| && toks[pos].Word? && w.isQualifier(toks[pos].text) then SkipQualifiers(w, toks, pos + 1) else pos
  }

  /** The base type of the specifiers at `pos`. */
  function BaseAt(w: Names, toks: seq<Token>, pos: nat): (r: Option<(Type, nat)>)
    requires pos <= |toks|
    ensures r.Some? ==> pos < r.value.1 <= |toks|
  {
    var e := WordsEnd(toks, pos);
    if e == pos then None
    else
      match w.base(Texts(toks[pos..e]))
      case None => None
      case Some(t) => Some((t, e))
  }

  /** The position after the parenthesis that closes the group at `pos`, or
      none where it is nested too deep or has no end. */
  function GroupEnd(toks: seq<Token>, pos: nat, depth: nat): (end: Option<nat>)
    requires pos <= |toks| && (depth > 0 || Tok(toks, pos).Open?)
    ensures end.Some? ==> pos < end.value <= |toks|
    decreases |toks| - pos
  {
    var t := Tok(toks, pos);
    if t.End? then None
    else if t.Open? then if depth + 1 > TYPE_DEPTH then None else GroupEnd(toks, pos + 1, depth + 1)
    else if t.Close? then if depth == 1 then Some(pos + 1) else GroupEnd(toks, pos + 1, depth - 1)
    else GroupEnd(toks, pos + 1, depth)
  }

  /** A type and where it ends. */
  type Parsed = Option<(Type, nat)>

  function TypeAt(w: Names, toks: seq<Token>, pos: nat, n: nat): (r: Parsed)
    requires pos <= |toks|
    ensures r.Some? ==> pos < r.value.1 <= |toks|
    decreases |toks| - pos, 5
  {
    match BaseAt(w, toks, pos)
    case None => None
    case Some((base, at)) => DeclaratorAt(w, toks, at, n, base)
  }

  function DeclaratorAt(w: Names, toks: seq<Token>, pos: nat, n: nat, base: Type): (r: Parsed)
    requires pos <= |toks|
    ensures r.Some? ==> pos <= r.value.1 <= |toks|
    decreases |toks| - pos, 4
  {
    if Tok(toks, pos).Star? then
      if n >= TYPE_DEPTH then None
      else DeclaratorAt(w, toks, SkipQualifiers(w, toks, pos + 1), n + 1, Pointer(base))
    else if Tok(toks, pos).Open? && (Tok(toks, pos + 1).Star? || Tok(toks, pos + 1).Open?) then
      if n >= TYPE_DEPTH then None else GroupAt(w, toks, pos, n + 1, base)
    else SuffixesAt(w, toks, pos, n, base)
  }

  /** A grouped declarator: what follows the group binds first. */
  function GroupAt(w: Names, toks: seq<Token>, pos: nat, n: nat, base: Type): (r: Parsed)
    requires pos <= |toks| && Tok(toks, pos).Open?
    ensures r.Some? ==> pos <= r.value.1 <= |toks|
    decreases |toks| - pos, 3
  {
    match GroupEnd(toks, pos, 0)
    case None => None
    case Some(end) =>
      match SuffixesAt(w, toks, end, n, base)
      case None => None
      case Some((outer, after)) =>
        match DeclaratorAt(w, toks, pos + 1, n, outer)
        case None => None
        case Some((t, stop)) => if Tok(toks, stop).Close? then Some((t, after)) else None
  }

  /** The array and function suffixes at `pos`, applied to `base`. */
  function SuffixesAt(w: Names, toks: seq<Token>, pos: nat, n: nat, base: Type): (r: Parsed)
    requires pos <= |toks|
    ensures r.Some? ==> pos <= r.value.1 <= |toks|
    decreases |toks| - pos, 2
  {
    if Tok(toks, pos).LBracket? then
      if n >= TYPE_DEPTH then None
      else
        match LengthAt(toks, pos + 1)
        case None => None
        case Some((length, at)) =>
          match SuffixesAt(w, toks, at, n + 1, base)
          case None => None
          case Some((element, end)) => Some((Array(length, element), end))
    else if Tok(toks, pos).Open? then
      if n >= TYPE_DEPTH then None else FunctionAt(w, toks, pos + 1, n + 1, base)
    else Some((base, pos))
  }

  /** The length of an array and its bracket; -1 where there is none. */
  function LengthAt(toks: seq<Token>, pos: nat): (r: Option<(int, nat)>)
    requires pos <= |toks|
    ensures r.Some? ==> pos < r.value.1 <= |toks|
  {
    var t := Tok(toks, pos);
    if t.Number? then
      if t.value.None? || !Tok(toks, pos + 1).RBracket? then None else Some((t.value.value, pos + 2))
    else if t.RBracket? then Some((-1, pos + 1))
    else None
  }

  /** A function type from the `(` that opens its parameters; it ends behind
      the `)`. */
  function FunctionAt(w: Names, toks: seq<Token>, pos: nat, n: nat, result: Type): (r: Parsed)
    requires pos <= |toks|
    ensures r.Some? ==> pos < r.value.1 <= |toks|
    decreases |toks| - pos, 7
  {
    if Tok(toks, pos).Close? then Some((Function(result, [], false), pos + 1))
    else
      match ParamsAt(w, toks, pos, n, [])
      case None => None
      case Some((params, variadic, at)) =>
        if !Tok(toks, at).Close? then None
        else Some((Function(result, if params == [Void] && !variadic then [] else params, variadic), at + 1))
  }

  function ParamsAt(w: Names, toks: seq<Token>, pos: nat, n: nat, before: seq<Type>)
      : (r: Option<(seq<Type>, bool, nat)>)
    requires pos <= |toks|
    ensures r.Some? ==> pos < r.value.2 <= |toks|
    decreases |toks| - pos, 6
  {
    if Tok(toks, pos).Dots? then Some((before, true, pos + 1))
    else
      match TypeAt(w, toks, pos, n)
      case None => None
      case Some((param, at)) =>
        if |before| == PARAMS then None
        else if Tok(toks, at).Comma? then ParamsAt(w, toks, at + 1, n, before + [param])
        else Some((before + [param], false, at))
  }

  /** A whole spelling. */
  function Parse(w: Names, toks: seq<Token>, n: nat): (t: Option<Type>) {
    if n >= TYPE_DEPTH then None
    else
      match TypeAt(w, toks, 0, n + 1)
      case None => None
      case Some((t, at)) => if at == |toks| then Some(t) else None
  }

  /** The parser, whose count of levels is shared by all parses in
      progress. */
  class TypeParser {
    const w: Names
    var nesting: nat

    constructor (w: Names)
      ensures this.w == w && nesting == 0
    {
      this.w, this.nesting := w, 0;
    }

    ghost predicate Valid()
      reads this
    {
      nesting <= TYPE_DEPTH
    }

    /** Count one level more, unless the bound is reached. */
    method Deeper() returns (ok: bool)
      requires Valid()
      modifies this
      ensures Valid() && ok == (old(nesting) < TYPE_DEPTH)
      ensures nesting == if ok then old(nesting) + 1 else old(nesting)
    {
      ok := nesting < TYPE_DEPTH;
      if ok { nesting := nesting + 1; }
    }

    method Specifiers(toks: seq<Token>, pos: nat) returns (r: Parsed)
      requires pos <= |toks|
      ensures r == BaseAt(w, toks, pos)
    {
      var e := pos;
      while e < |toks| && toks[e].Word?
        invariant pos <= e <= |toks| && WordsEnd(toks, pos) == WordsEnd(toks, e)
        invariant forall i :: pos <= i < e ==> toks[i].Word?
      {
        e := e + 1;
      }
      if e == pos { return None; }
      var t := w.base(Texts(toks[pos..e]));
      r := if t.None? then None else Some((t.value, e));
    }

    method FindGroupEnd(toks: seq<Token>, start: nat) returns (end: Option<nat>)
      requires start <= |toks| && Tok(toks, start).Open?
      ensures end == GroupEnd(toks, start, 0)
    {
      var pos, depth: nat := start + 1, 1;
      while depth > 0
        invariant start < pos <= |toks| && depth <= TYPE_DEPTH
        invariant GroupEnd(toks, start, 0) == if depth == 0 then Some(pos) else GroupEnd(toks, pos, depth)
        decreases |toks| - pos
      {
        var t := Tok(toks, pos);
        if t.Open? {
          if depth + 1 > TYPE_DEPTH { return None; }
          depth := depth + 1;
        } else if t.Close? {
          depth := depth - 1;
        } else if t.End? {
          return None;
        }
        pos := pos + 1;
      }
      end := Some(pos);
    }

    method ParseTypeAt(toks: seq<Token>, pos: nat) returns (r: Parsed)
      requires Valid() && pos <= |toks|
      modifies this
      ensures Valid() && r == TypeAt(w, toks, pos, old(nesting)) && (r.Some? ==> nesting == old(nesting))
      decreases |toks| - pos, 5
    {
      var base := Specifiers(toks, pos);
      if base.None? { return None; }
      r := Declarator(toks, base.value.1, base.value.0);
    }

    method Declarator(toks: seq<Token>, start: nat, first: Type) returns (r: Parsed)
      requires Valid() && start <= |toks|
      modifies this
      ensures Valid() && r == DeclaratorAt(w, toks, start, old(nesting), first) && (r.Some? ==> nesting == old(nesting))
      decreases |toks| - start, 4
    {
      var depth, pos, base := nesting, start, first;
      while Tok(toks, pos).Star?
        invariant start <= pos <= |toks| && Valid()
        invariant DeclaratorAt(w, toks, start, depth, first) == DeclaratorAt(w, toks, pos, nesting, base)
        decreases |toks| - pos
      {
        var ok := Deeper();
        if !ok { return None; }
        pos := pos + 1;
        while pos < |toks| && toks[pos].Word? && w.isQualifier(toks[pos].text)
          invariant pos <= |toks| && start < pos
          invariant DeclaratorAt(w, toks, start, depth, first) ==
                    DeclaratorAt(w, toks, SkipQualifiers(w, toks, pos), nesting, Pointer(base))
          decreases |toks| - pos
        {
          pos := pos + 1;
        }
        base := Pointer(base);
      }
      if Tok(toks, pos).Open? && (Tok(toks, pos + 1).Star? || Tok(toks, pos + 1).Open?) {
        var ok := Deeper();
        if !ok { return None; }
        r := GroupedDeclarator(toks, pos, base);
      } else {
        r := Suffixes(toks, pos, base);
      }
      if r.Some? { nesting := depth; }
    }

    method GroupedDeclarator(toks: seq<Token>, pos: nat, base: Type) returns (r: Parsed)
      requires Valid() && pos <= |toks| && Tok(toks, pos).Open?
      modifies this
      ensures Valid() && r == GroupAt(w, toks, pos, old(nesting), base)
      decreases |toks| - pos, 3
    {
      var end := FindGroupEnd(toks, pos);
      if end.None? { return None; }
      var outer := Suffixes(toks, end.value, base);
      if outer.None? { return None; }
      var inner := Declarator(toks, pos + 1, outer.value.0);
      if inner.None? || !Tok(toks, inner.value.1).Close? { return None; }
      r := Some((inner.value.0, outer.value.1));
    }

    method Suffixes(toks: seq<Token>, pos: nat, base: Type) returns (r: Parsed)
      requires Valid() && pos <= |toks|
      modifies this
      ensures Valid() && r == SuffixesAt(w, toks, pos, old(nesting), base) && (r.Some? ==> nesting == old(nesting))
      decreases |toks| - pos, 2
    {
      if Tok(toks, pos).LBracket? {
        var ok := Deeper();
        if !ok { return None; }
        var at := LengthAt(toks, pos + 1);
        if at.None? { return None; }
        var element := Suffixes(toks, at.value.1, base);
        if element.None? { return None; }
        nesting := nesting - 1;
        return Some((Array(at.value.0, element.value.0), element.value.1));
      }
      if Tok(toks, pos).Open? {
        var ok := Deeper();
        if !ok { return None; }
        r := FunctionOf(toks, pos + 1, base);
        if r.Some? { nesting := nesting - 1; }
        return;
      }
      r := Some((base, pos));
    }

    method FunctionOf(toks: seq<Token>, start: nat, result: Type) returns (r: Parsed)
      requires Valid() && start <= |toks|
      modifies this
      ensures Valid() && r == FunctionAt(w, toks, start, old(nesting), result) && (r.Some? ==> nesting == old(nesting))
      decreases |toks| - start, 7
    {
      if Tok(toks, start).Close? { return Some((Function(result, [], false), start + 1)); }
      var list := Parameters(toks, start);
      if list.None? || !Tok(toks, list.value.2).Close? { return None; }
      var (params, variadic, at) := list.value;
      if |params| == 1 && params[0].Void? && !variadic { params := []; }
      r := Some((Function(result, params, variadic), at + 1));
    }

    method Parameters(toks: seq<Token>, start: nat) returns (r: Option<(seq<Type>, bool, nat)>)
      requires Valid() && start <= |toks|
      modifies this
      ensures Valid() && r == ParamsAt(w, toks, start, old(nesting), []) && (r.Some? ==> nesting == old(nesting))
      decreases |toks| - start, 6
    {
      var params: seq<Type>, pos := [], start;
      while true
        invariant start <= pos <= |toks| && Valid() && nesting == old(nesting)
        invariant ParamsAt(w, toks, start, old(nesting), []) == ParamsAt(w, toks, pos, nesting, params)
        decreases |toks| - pos
      {
        if Tok(toks, pos).Dots? { return Some((params, true, pos + 1)); }
        var param := ParseTypeAt(toks, pos);
        if param.None? || |params| == PARAMS { return None; }
        params, pos := params + [param.value.0], param.value.1;
        if !Tok(toks, pos).Comma? { return Some((params, false, pos)); }
        pos := pos + 1;
      }
    }

    /** One spelling. The count of levels stands where it stood, whether the
        parse succeeds or not. */
    method BindParseType(toks: seq<Token>) returns (t: Option<Type>)
      requires Valid()
      modifies this
      ensures t == Parse(w, toks, old(nesting)) && nesting == old(nesting)
    {
      var depth := nesting;
      var ok := Deeper();
      if !ok { return None; }
      var r := ParseTypeAt(toks, 0);
      nesting := depth;
      t := if r.None? || r.value.1 != |toks| then None else Some(r.value.0);
    }
  }
}
