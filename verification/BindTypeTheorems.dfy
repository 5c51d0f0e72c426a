/** The spelling of a C type, section 6.7.7 of ISO C11, and the types the
    parser makes of it. */
module BindTypeTheorems {
  import opened Options
  import opened BindModel
  import opened BindType

  /** A type name: the specifiers of a base type and an abstract declarator,
      qualifiers behind its stars. */
  datatype TypeName = TypeName(base: Type, decl: Declarator)

  datatype Declarator =
    | Ptr(quals: seq<string>, inner: Declarator)
    | Direct(suffix: Suffix)
    | Group(inner: Declarator, suffix: Suffix)

  datatype Suffix =
    | Stop
    | Arr(length: int, rest: Suffix)
    | Fun(params: seq<TypeName>, variadic: bool)

  // ---- What a type name means ----

  function TypeOf(p: TypeName): (t: Type)
    decreases p
  {
    DeclaredType(p.decl, p.base)
  }

  /** A pointer applies before what it stands before, a suffix before what
      groups it. */
  function DeclaredType(d: Declarator, base: Type): (t: Type)
    decreases d
  {
    match d
    case Ptr(_, inner) => DeclaredType(inner, Pointer(base))
    case Direct(suffix) => SuffixedType(suffix, base)
    case Group(inner, suffix) => DeclaredType(inner, SuffixedType(suffix, base))
  }

  function SuffixedType(s: Suffix, base: Type): (t: Type)
    decreases s
  {
    match s
    case Stop => base
    case Arr(length, rest) => Array(length, SuffixedType(rest, base))
    case Fun(params, variadic) => Function(base, Types(params, 0), variadic)
  }

  function Types(ps: seq<TypeName>, i: nat): (ts: seq<Type>)
    requires i <= |ps|
    ensures |ts| == |ps| - i
    decreases ps, |ps| - i
  {
    if i == |ps| then [] else [TypeOf(ps[i])] + Types(ps, i + 1)
  }

  // ---- How it is spelled ----

  /** The words each base type is spelled by. */
  type Words = Type -> seq<string>

  function WordTokens(words: seq<string>): (toks: seq<Token>)
    ensures |toks| == |words| && forall i :: 0 <= i < |toks| ==> toks[i] == Word(words[i])
  {
    seq(|words|, i requires 0 <= i < |words| => Word(words[i]))
  }

  function Spelling(ws: Words, p: TypeName): (toks: seq<Token>)
    decreases p
  {
    WordTokens(ws(p.base)) + DeclTokens(ws, p.decl)
  }

  function DeclTokens(ws: Words, d: Declarator): (toks: seq<Token>)
    decreases d
  {
    match d
    case Ptr(quals, inner) => [Star] + (WordTokens(quals) + DeclTokens(ws, inner))
    case Direct(suffix) => SuffixTokens(ws, suffix)
    case Group(inner, suffix) => ([Open] + (DeclTokens(ws, inner) + [Close])) + SuffixTokens(ws, suffix)
  }

  function LengthTokens(length: int): (toks: seq<Token>) {
    if length == -1 then [RBracket] else [Number(Some(length)), RBracket]
  }

  function SuffixTokens(ws: Words, s: Suffix): (toks: seq<Token>)
    decreases s, 1
  {
    match s
    case Stop => []
    case Arr(length, rest) => [LBracket] + (LengthTokens(length) + SuffixTokens(ws, rest))
    case Fun(_, _) => [Open] + (FunTokens(ws, s) + [Close])
  }

  /** A function of no parameter is spelled `(void)`. */
  function FunTokens(ws: Words, s: Suffix): (toks: seq<Token>)
    requires s.Fun?
    decreases s, 0
  {
    if s.params == [] && !s.variadic then WordTokens(ws(Void)) else ListTokens(ws, s.params, 0, s.variadic)
  }

  function ListTokens(ws: Words, ps: seq<TypeName>, i: nat, variadic: bool): (toks: seq<Token>)
    requires i <= |ps|
    decreases ps, |ps| - i
  {
    if i == |ps| then [Dots]
    else if i + 1 < |ps| || variadic then Spelling(ws, ps[i]) + ([Comma] + ListTokens(ws, ps, i + 1, variadic))
    else Spelling(ws, ps[i])
  }

  // ---- The type names of C, and how deep they nest ----

  predicate StartsGroup(d: Declarator) {
    d.Ptr? || d.Group? || d.suffix.Fun?
  }

  /** The words of a base type are a specifier list of it. */
  predicate Spelled(w: Names, ws: Words, t: Type) {
    ws(t) != [] && w.base(ws(t)) == Some(t)
  }

  predicate Proper(w: Names, ws: Words, p: TypeName)
    decreases p
  {
    Spelled(w, ws, p.base) && ProperDecl(w, ws, p.decl)
  }

  predicate ProperDecl(w: Names, ws: Words, d: Declarator)
    decreases d
  {
    match d
    case Ptr(quals, inner) => (forall q :: q in quals ==> w.isQualifier(q)) && ProperDecl(w, ws, inner)
    case Direct(suffix) => ProperSuffix(w, ws, suffix)
    case Group(inner, suffix) => StartsGroup(inner) && ProperDecl(w, ws, inner) && ProperSuffix(w, ws, suffix)
  }

  predicate ProperSuffix(w: Names, ws: Words, s: Suffix)
    decreases s
  {
    match s
    case Stop => true
    case Arr(length, rest) => -1 <= length <= 0x7fff_ffff_ffff_ffff && ProperSuffix(w, ws, rest)
    case Fun(params, variadic) =>
      && (params == [] && !variadic ==> Spelled(w, ws, Void)) && ProperList(w, ws, params, 0)
      && (|params| == 1 && !variadic ==> TypeOf(params[0]) != Void)
  }

  predicate ProperList(w: Names, ws: Words, ps: seq<TypeName>, i: nat)
    requires i <= |ps|
    decreases ps, |ps| - i
  {
    i == |ps| || (Proper(w, ws, ps[i]) && ProperList(w, ws, ps, i + 1))
  }

  function Max(a: nat, b: nat): (m: nat) {
    if a < b then b else a
  }

  /** The levels a parse of the type name enters. */
  function Depth(p: TypeName): (n: nat)
    decreases p
  {
    DeclDepth(p.decl)
  }

  function DeclDepth(d: Declarator): (n: nat)
    decreases d
  {
    match d
    case Ptr(_, inner) => 1 + DeclDepth(inner)
    case Direct(suffix) => SuffixDepth(suffix)
    case Group(inner, suffix) => 1 + Max(SuffixDepth(suffix), DeclDepth(inner))
  }

  function SuffixDepth(s: Suffix): (n: nat)
    decreases s
  {
    match s
    case Stop => 0
    case Arr(_, rest) => 1 + SuffixDepth(rest)
    case Fun(params, _) => 1 + ListDepth(params, 0)
  }

  function ListDepth(ps: seq<TypeName>, i: nat): (n: nat)
    requires i <= |ps|
    decreases ps, |ps| - i
  {
    if i == |ps| then 0 else Max(Depth(ps[i]), ListDepth(ps, i + 1))
  }

  /** No parameter list is longer than the parser keeps. */
  predicate Narrow(p: TypeName)
    decreases p
  {
    NarrowDecl(p.decl)
  }

  predicate NarrowDecl(d: Declarator)
    decreases d
  {
    match d
    case Ptr(_, inner) => NarrowDecl(inner)
    case Direct(suffix) => NarrowSuffix(suffix)
    case Group(inner, suffix) => NarrowDecl(inner) && NarrowSuffix(suffix)
  }

  predicate NarrowSuffix(s: Suffix)
    decreases s
  {
    match s
    case Stop => true
    case Arr(_, rest) => NarrowSuffix(rest)
    case Fun(params, _) => |params| <= 64 && NarrowList(params, 0)
  }

  predicate NarrowList(ps: seq<TypeName>, i: nat)
    requires i <= |ps|
    decreases ps, |ps| - i
  {
    i == |ps| || (Narrow(ps[i]) && NarrowList(ps, i + 1))
  }

  // ---- Tokens at a place ----

  predicate Has(toks: seq<Token>, pos: nat, s: seq<Token>) {
    pos + |s| <= |toks| && forall i :: 0 <= i < |s| ==> toks[pos + i] == s[i]
  }

  lemma HasBoth(toks: seq<Token>, pos: nat, a: seq<Token>, b: seq<Token>)
    requires Has(toks, pos, a + b)
    ensures Has(toks, pos, a) && Has(toks, pos + |a|, b)
  {
    forall i | 0 <= i < |a| ensures toks[pos + i] == a[i] { assert (a + b)[i] == a[i]; }
    forall i | 0 <= i < |b| ensures toks[pos + |a| + i] == b[i] { assert (a + b)[|a| + i] == b[i]; }
  }

  lemma HasFirst(toks: seq<Token>, pos: nat, s: seq<Token>)
    requires Has(toks, pos, s) && s != []
    ensures pos < |toks| && toks[pos] == s[0]
  {
    var i := 0;
    assert toks[pos + i] == s[i];
  }

  lemma HasHead(toks: seq<Token>, pos: nat, t: Token, rest: seq<Token>)
    requires Has(toks, pos, [t] + rest)
    ensures pos < |toks| && toks[pos] == t && Has(toks, pos + 1, rest)
  {
    HasFirst(toks, pos, [t] + rest);
    HasBoth(toks, pos, [t], rest);
  }

  /** What may follow a type name. */
  predicate Follows(toks: seq<Token>, pos: nat) {
    Tok(toks, pos).Comma? || Tok(toks, pos).Close? || Tok(toks, pos).End?
  }

  lemma WordsHere(toks: seq<Token>, pos: nat, words: seq<string>)
    requires Has(toks, pos, WordTokens(words)) && !Tok(toks, pos + |words|).Word?
    ensures WordsEnd(toks, pos) == pos + |words| && Texts(toks[pos..pos + |words|]) == words
    decreases |words|
  {
    if words == [] {
    } else {
      var rest := words[1..];
      assert toks[pos] == WordTokens(words)[0];
      forall i | 0 <= i < |rest| ensures toks[pos + 1 + i] == WordTokens(rest)[i] {
        assert toks[pos + (i + 1)] == WordTokens(words)[i + 1];
      }
      WordsHere(toks, pos + 1, rest);
      forall i | pos <= i < pos + |words| ensures toks[i].Word? {
        assert toks[pos + (i - pos)] == WordTokens(words)[i - pos];
      }
      assert Texts(toks[pos..pos + |words|]) == words;
    }
  }

  /** The first token of a declarator, or what follows an empty one. */
  lemma DeclStart(ws: Words, d: Declarator, toks: seq<Token>, pos: nat)
    requires Has(toks, pos, DeclTokens(ws, d)) && Follows(toks, pos + |DeclTokens(ws, d)|)
    ensures !Tok(toks, pos).Word?
    ensures StartsGroup(d) ==> Tok(toks, pos).Star? || Tok(toks, pos).Open?
    ensures d.Ptr? ==> Tok(toks, pos).Star?
    ensures d.Direct? ==> !Tok(toks, pos).Star?
    ensures d.Group? ==> Tok(toks, pos).Open?
  {
    var all := DeclTokens(ws, d);
    match d
    case Ptr(_, inner) => HasFirst(toks, pos, all);
    case Group(inner, suffix) => HasFirst(toks, pos, all);
    case Direct(suffix) =>
      if suffix.Arr? || suffix.Fun? {
        assert SuffixTokens(ws, suffix)[0] == if suffix.Arr? then LBracket else Open;
        HasFirst(toks, pos, all);
      }
  }

  /** The words of a base type end where the declarator starts. */
  lemma BaseHere(w: Names, ws: Words, p: TypeName, toks: seq<Token>, pos: nat)
    requires Proper(w, ws, p) && Has(toks, pos, Spelling(ws, p)) && Follows(toks, pos + |Spelling(ws, p)|)
    ensures var at := pos + |ws(p.base)|;
            && pos < at <= |toks| && BaseAt(w, toks, pos) == Some((p.base, at))
            && Has(toks, at, DeclTokens(ws, p.decl)) && at + |DeclTokens(ws, p.decl)| == pos + |Spelling(ws, p)|
  {
    HasBoth(toks, pos, WordTokens(ws(p.base)), DeclTokens(ws, p.decl));
    DeclStart(ws, p.decl, toks, pos + |ws(p.base)|);
    WordsHere(toks, pos, ws(p.base));
  }

  /** Qualifiers behind a star are passed over, up to the declarator. */
  lemma {:induction false} QualifiersHere(w: Names, toks: seq<Token>, pos: nat, quals: seq<string>)
    requires Has(toks, pos, WordTokens(quals)) && !Tok(toks, pos + |quals|).Word?
    requires forall q :: q in quals ==> w.isQualifier(q)
    ensures SkipQualifiers(w, toks, pos) == pos + |quals|
    decreases |quals|
  {
    if quals != [] {
      HasFirst(toks, pos, WordTokens(quals));
      forall i | 0 <= i < |quals[1..]| ensures toks[pos + 1 + i] == WordTokens(quals[1..])[i] {
        assert toks[pos + (i + 1)] == WordTokens(quals)[i + 1];
      }
      QualifiersHere(w, toks, pos + 1, quals[1..]);
    }
  }

  lemma LengthHere(toks: seq<Token>, pos: nat, length: int)
    requires Has(toks, pos, LengthTokens(length))
    ensures LengthAt(toks, pos) == Some((length, pos + |LengthTokens(length)|))
    ensures forall i :: pos <= i < pos + |LengthTokens(length)| ==> toks[i].Number? || toks[i].RBracket?
  {
    if length == -1 {
      HasFirst(toks, pos, [RBracket]);
    } else {
      assert [Number(Some(length)), RBracket] == [Number(Some(length))] + [RBracket];
      HasHead(toks, pos, Number(Some(length)), [RBracket]);
      HasFirst(toks, pos + 1, [RBracket]);
    }
  }

  // ---- The end of a group ----

  /** The scan for the end of a group passes over a whole type name: it can
      only stop where the bound stops it. */
  ghost predicate Passes(toks: seq<Token>, pos: nat, end: nat, depth: nat, need: nat) {
    && pos <= end <= |toks| && depth > 0
    && (GroupEnd(toks, pos, depth) == None || GroupEnd(toks, pos, depth) == GroupEnd(toks, end, depth))
    && (depth + need <= TYPE_DEPTH ==> GroupEnd(toks, pos, depth) == GroupEnd(toks, end, depth))
  }

  lemma {:induction false} PassType(ws: Words, p: TypeName, toks: seq<Token>, pos: nat, depth: nat)
    requires Has(toks, pos, Spelling(ws, p)) && depth > 0
    ensures Passes(toks, pos, pos + |Spelling(ws, p)|, depth, Depth(p))
    decreases p, 0
  {
    var words := ws(p.base);
    HasBoth(toks, pos, WordTokens(words), DeclTokens(ws, p.decl));
    PassWords(toks, pos, words, depth);
    PassDecl(ws, p.decl, toks, pos + |words|, depth);
  }

  lemma {:induction false} PassWords(toks: seq<Token>, pos: nat, words: seq<string>, depth: nat)
    requires Has(toks, pos, WordTokens(words)) && depth > 0
    ensures GroupEnd(toks, pos, depth) == GroupEnd(toks, pos + |words|, depth)
    decreases |words|
  {
    if words != [] {
      HasFirst(toks, pos, WordTokens(words));
      forall i | 0 <= i < |words[1..]| ensures toks[pos + 1 + i] == WordTokens(words[1..])[i] {
        assert toks[pos + (i + 1)] == WordTokens(words)[i + 1];
      }
      PassWords(toks, pos + 1, words[1..], depth);
    }
  }

  lemma {:induction false} PassDecl(ws: Words, d: Declarator, toks: seq<Token>, pos: nat, depth: nat)
    requires Has(toks, pos, DeclTokens(ws, d)) && depth > 0
    ensures Passes(toks, pos, pos + |DeclTokens(ws, d)|, depth, DeclDepth(d))
    decreases d, 0
  {
    match d
    case Ptr(quals, inner) =>
      HasHead(toks, pos, Star, WordTokens(quals) + DeclTokens(ws, inner));
      HasBoth(toks, pos + 1, WordTokens(quals), DeclTokens(ws, inner));
      PassWords(toks, pos + 1, quals, depth);
      PassDecl(ws, inner, toks, pos + 1 + |quals|, depth);
    case Direct(suffix) => PassSuffix(ws, suffix, toks, pos, depth);
    case Group(inner, suffix) =>
      var group := [Open] + (DeclTokens(ws, inner) + [Close]);
      HasBoth(toks, pos, group, SuffixTokens(ws, suffix));
      PassGroup(toks, pos, DeclTokens(ws, inner), depth, DeclDepth(inner), ws, inner);
      PassSuffix(ws, suffix, toks, pos + |group|, depth);
  }

  lemma {:induction false} PassGroup(toks: seq<Token>, pos: nat, s: seq<Token>, depth: nat, need: nat, ws: Words,
                                     inner: Declarator)
    requires Has(toks, pos, [Open] + (s + [Close])) && depth > 0
    requires s == DeclTokens(ws, inner) && need == DeclDepth(inner)
    ensures Passes(toks, pos, pos + |s| + 2, depth, 1 + need)
    decreases inner, 1
  {
    Parenthesised(toks, pos, s);
    if depth + 1 <= TYPE_DEPTH {
      PassDecl(ws, inner, toks, pos + 1, depth + 1);
      GroupCloses(toks, pos, |s|, depth, need);
    }
  }

  lemma Parenthesised(toks: seq<Token>, pos: nat, s: seq<Token>)
    requires Has(toks, pos, [Open] + (s + [Close]))
    ensures pos + |s| + 2 <= |toks| && toks[pos] == Open && Has(toks, pos + 1, s) && toks[pos + 1 + |s|] == Close
  {
    HasHead(toks, pos, Open, s + [Close]);
    HasBoth(toks, pos + 1, s, [Close]);
    HasFirst(toks, pos + 1 + |s|, [Close]);
  }

  lemma GroupCloses(toks: seq<Token>, pos: nat, length: nat, depth: nat, need: nat)
    requires pos + length + 2 <= |toks| && toks[pos] == Open && toks[pos + 1 + length] == Close
    requires 0 < depth < TYPE_DEPTH && Passes(toks, pos + 1, pos + 1 + length, depth + 1, need)
    ensures Passes(toks, pos, pos + length + 2, depth, 1 + need)
  {
  }

  lemma {:induction false} PassSuffix(ws: Words, s: Suffix, toks: seq<Token>, pos: nat, depth: nat)
    requires Has(toks, pos, SuffixTokens(ws, s)) && depth > 0
    ensures Passes(toks, pos, pos + |SuffixTokens(ws, s)|, depth, SuffixDepth(s))
    decreases s, 3
  {
    if s.Arr? {
      var at := ArraySplits(ws, s.length, s.rest, toks, pos);
      HasHead(toks, pos, LBracket, LengthTokens(s.length) + SuffixTokens(ws, s.rest));
      HasBoth(toks, pos + 1, LengthTokens(s.length), SuffixTokens(ws, s.rest));
      PassLength(toks, pos + 1, s.length, depth);
      assert GroupEnd(toks, pos, depth) == GroupEnd(toks, pos + 1, depth);
      PassSuffix(ws, s.rest, toks, at, depth);
    } else if s.Fun? {
      Parenthesised(toks, pos, FunTokens(ws, s));
      if depth + 1 <= TYPE_DEPTH {
        PassFun(ws, s, toks, pos + 1, depth + 1);
        GroupCloses(toks, pos, |FunTokens(ws, s)|, depth, ListDepth(s.params, 0));
      }
    }
  }

  lemma PassLength(toks: seq<Token>, pos: nat, length: int, depth: nat)
    requires Has(toks, pos, LengthTokens(length)) && depth > 0
    ensures GroupEnd(toks, pos, depth) == GroupEnd(toks, pos + |LengthTokens(length)|, depth)
  {
    LengthHere(toks, pos, length);
    HasFirst(toks, pos, LengthTokens(length));
    if length != -1 {
      assert GroupEnd(toks, pos + 1, depth) == GroupEnd(toks, pos + 2, depth);
    }
  }

  lemma {:induction false} PassFun(ws: Words, s: Suffix, toks: seq<Token>, pos: nat, depth: nat)
    requires s.Fun? && Has(toks, pos, FunTokens(ws, s)) && depth > 0
    ensures Passes(toks, pos, pos + |FunTokens(ws, s)|, depth, ListDepth(s.params, 0))
    decreases s, 2
  {
    if s.params == [] && !s.variadic {
      PassWords(toks, pos, ws(Void), depth);
    } else {
      PassList(ws, s.params, 0, s.variadic, toks, pos, depth);
    }
  }

  lemma {:induction false} PassList(ws: Words, ps: seq<TypeName>, i: nat, variadic: bool, toks: seq<Token>, pos: nat,
                                    depth: nat)
    requires i <= |ps| && Has(toks, pos, ListTokens(ws, ps, i, variadic)) && depth > 0
    ensures Passes(toks, pos, pos + |ListTokens(ws, ps, i, variadic)|, depth, ListDepth(ps, i))
    decreases ps, |ps| - i
  {
    if i == |ps| {
      HasFirst(toks, pos, [Dots]);
    } else if i + 1 < |ps| || variadic {
      var one, rest := Spelling(ws, ps[i]), ListTokens(ws, ps, i + 1, variadic);
      HasBoth(toks, pos, one, [Comma] + rest);
      HasHead(toks, pos + |one|, Comma, rest);
      PassType(ws, ps[i], toks, pos, depth);
      PassList(ws, ps, i + 1, variadic, toks, pos + |one| + 1, depth);
    } else {
      PassType(ws, ps[i], toks, pos, depth);
    }
  }

  // ---- The parser gives a spelling its type ----

  /** What the parser makes of a spelling: its type where it nests no deeper
      and lists no more parameters than the parser keeps, and nothing
      otherwise. */
  function Reads(fits: bool, t: Type, end: nat): (r: Parsed) {
    if fits then Some((t, end)) else None
  }

  predicate Fits(p: TypeName, n: nat) {
    n + Depth(p) <= 256 && Narrow(p)
  }

  predicate ListFits(ps: seq<TypeName>, i: nat, n: nat)
    requires i <= |ps|
  {
    n + ListDepth(ps, i) <= 256 && |ps| <= 64 && NarrowList(ps, i)
  }

  lemma ListFitsOne(ps: seq<TypeName>, i: nat, n: nat)
    requires i < |ps|
    ensures ListFits(ps, i, n) <==> Fits(ps[i], n) && ListFits(ps, i + 1, n)
  {
  }

  function ReadsList(fits: bool, ts: seq<Type>, variadic: bool, end: nat): (r: Option<(seq<Type>, bool, nat)>) {
    if fits then Some((ts, variadic, end)) else None
  }

  lemma {:induction false} ReadType(w: Names, ws: Words, p: TypeName, toks: seq<Token>, pos: nat, n: nat)
    requires Proper(w, ws, p) && n <= TYPE_DEPTH
    requires Has(toks, pos, Spelling(ws, p)) && Follows(toks, pos + |Spelling(ws, p)|)
    ensures TypeAt(w, toks, pos, n) ==
            Reads(Fits(p, n), TypeOf(p), pos + |Spelling(ws, p)|)
    decreases p, 0
  {
    BaseHere(w, ws, p, toks, pos);
    ReadDecl(w, ws, p.decl, toks, pos + |ws(p.base)|, n, p.base);
  }

  lemma {:induction false} ReadDecl(w: Names, ws: Words, d: Declarator, toks: seq<Token>, pos: nat, n: nat, base: Type)
    requires ProperDecl(w, ws, d) && n <= TYPE_DEPTH
    requires Has(toks, pos, DeclTokens(ws, d)) && Follows(toks, pos + |DeclTokens(ws, d)|)
    ensures DeclaratorAt(w, toks, pos, n, base) ==
            Reads(n + DeclDepth(d) <= TYPE_DEPTH && NarrowDecl(d), DeclaredType(d, base), pos + |DeclTokens(ws, d)|)
    decreases d, 2
  {
    hide SuffixesAt, SuffixTokens, GroupEnd, Has, WordTokens, GroupAt, Follows;
    DeclStart(ws, d, toks, pos);
    match d
    case Ptr(quals, inner) => ReadPointer(w, ws, d, toks, pos, n, base);
    case Direct(suffix) => ReadDirect(w, ws, suffix, toks, pos, n, base);
    case Group(inner, suffix) =>
      var s := DeclTokens(ws, inner);
      HasBoth(toks, pos, [Open] + (s + [Close]), SuffixTokens(ws, suffix));
      Parenthesised(toks, pos, s);
      IsClose(toks, pos + 1 + |s|);
      DeclStart(ws, inner, toks, pos + 1);
      if n < TYPE_DEPTH { ReadGroup(w, ws, d, toks, pos, n + 1, base); }
  }

  lemma {:induction false} ReadPointer(w: Names, ws: Words, d: Declarator, toks: seq<Token>, pos: nat, n: nat,
                                       base: Type)
    requires d.Ptr? && ProperDecl(w, ws, d) && n <= TYPE_DEPTH
    requires Has(toks, pos, DeclTokens(ws, d)) && Follows(toks, pos + |DeclTokens(ws, d)|)
    ensures DeclaratorAt(w, toks, pos, n, base) ==
            Reads(n + DeclDepth(d) <= TYPE_DEPTH && NarrowDecl(d), DeclaredType(d, base), pos + |DeclTokens(ws, d)|)
    decreases d, 1
  {
    hide SuffixesAt, SuffixTokens, GroupEnd, Has, WordTokens, GroupAt, Follows;
    var s := DeclTokens(ws, d.inner);
    PointerHere(w, toks, pos, d.quals, s);
    if n < TYPE_DEPTH {
      DeclStart(ws, d.inner, toks, pos + 1 + |d.quals|);
      QualifiersHere(w, toks, pos + 1, d.quals);
      ReadDecl(w, ws, d.inner, toks, pos + 1 + |d.quals|, n + 1, Pointer(base));
    }
  }

  lemma PointerHere(w: Names, toks: seq<Token>, pos: nat, quals: seq<string>, s: seq<Token>)
    requires Has(toks, pos, [Star] + (WordTokens(quals) + s))
    ensures pos < |toks| && toks[pos] == Star
    ensures Has(toks, pos + 1, WordTokens(quals)) && Has(toks, pos + 1 + |quals|, s)
  {
    HasHead(toks, pos, Star, WordTokens(quals) + s);
    HasBoth(toks, pos + 1, WordTokens(quals), s);
  }

  lemma {:induction false} ReadDirect(w: Names, ws: Words, s: Suffix, toks: seq<Token>, pos: nat, n: nat, base: Type)
    requires ProperSuffix(w, ws, s) && n <= TYPE_DEPTH
    requires Has(toks, pos, SuffixTokens(ws, s)) && Follows(toks, pos + |SuffixTokens(ws, s)|)
    ensures DeclaratorAt(w, toks, pos, n, base) ==
            Reads(n + SuffixDepth(s) <= TYPE_DEPTH && NarrowSuffix(s), SuffixedType(s, base),
                  pos + |SuffixTokens(ws, s)|)
    decreases s, 5
  {
    ReadSuffix(w, ws, s, toks, pos, n, base);
    if s.Fun? {
      var inside := FunTokens(ws, s);
      Parenthesised(toks, pos, inside);
      FunStart(w, ws, s, toks, pos + 1);
    } else if s.Arr? {
      HasHead(toks, pos, LBracket, LengthTokens(s.length) + SuffixTokens(ws, s.rest));
    }
  }

  /** A parameter list starts with a word or with dots. */
  lemma FunStart(w: Names, ws: Words, s: Suffix, toks: seq<Token>, pos: nat)
    requires s.Fun? && ProperSuffix(w, ws, s) && Has(toks, pos, FunTokens(ws, s))
    ensures Tok(toks, pos).Word? || Tok(toks, pos).Dots?
    ensures s.params != [] || !s.variadic ==> Tok(toks, pos).Word?
    ensures s.params == [] && s.variadic ==> Tok(toks, pos).Dots?
  {
    if s.params != [] {
      var one := Spelling(ws, s.params[0]);
      assert FunTokens(ws, s) == ListTokens(ws, s.params, 0, s.variadic);
      if 1 < |s.params| || s.variadic {
        assert ListTokens(ws, s.params, 0, s.variadic) == one + ([Comma] + ListTokens(ws, s.params, 1, s.variadic));
        HasBoth(toks, pos, one, [Comma] + ListTokens(ws, s.params, 1, s.variadic));
      }
      WordFirst(ws, w, s.params[0], toks, pos);
    } else if s.variadic {
      assert FunTokens(ws, s) == ListTokens(ws, s.params, 0, s.variadic) == [Dots];
      HasFirst(toks, pos, [Dots]);
    } else {
      HasFirst(toks, pos, WordTokens(ws(Void)));
    }
  }

  lemma {:induction false} ReadGroup(w: Names, ws: Words, d: Declarator, toks: seq<Token>, pos: nat, n: nat, base: Type)
    requires d.Group? && ProperDecl(w, ws, d) && 0 < n <= TYPE_DEPTH
    requires Has(toks, pos, DeclTokens(ws, d)) && Follows(toks, pos + |DeclTokens(ws, d)|)
    ensures Tok(toks, pos).Open?
    ensures GroupAt(w, toks, pos, n, base) ==
            Reads(n + Max(SuffixDepth(d.suffix), DeclDepth(d.inner)) <= TYPE_DEPTH && NarrowDecl(d),
                  DeclaredType(d, base), pos + |DeclTokens(ws, d)|)
    decreases d, 1
  {
    hide SuffixesAt, DeclaratorAt, SuffixTokens, SuffixDepth, ProperSuffix;
    var s := DeclTokens(ws, d.inner);
    var end := pos + |s| + 2;
    HasBoth(toks, pos, [Open] + (s + [Close]), SuffixTokens(ws, d.suffix));
    Parenthesised(toks, pos, s);
    PassDecl(ws, d.inner, toks, pos + 1, 1);
    assert GroupEnd(toks, end - 1, 1) == Some(end);
    assert GroupEnd(toks, pos, 0) == GroupEnd(toks, pos + 1, 1);
    ReadSuffix(w, ws, d.suffix, toks, end, n, base);
    ReadDecl(w, ws, d.inner, toks, pos + 1, n, SuffixedType(d.suffix, base));
  }

  lemma {:induction false} ReadSuffix(w: Names, ws: Words, s: Suffix, toks: seq<Token>, pos: nat, n: nat, base: Type)
    requires ProperSuffix(w, ws, s) && n <= TYPE_DEPTH
    requires Has(toks, pos, SuffixTokens(ws, s)) && Follows(toks, pos + |SuffixTokens(ws, s)|)
    ensures SuffixesAt(w, toks, pos, n, base) ==
            Reads(n + SuffixDepth(s) <= TYPE_DEPTH && NarrowSuffix(s), SuffixedType(s, base),
                  pos + |SuffixTokens(ws, s)|)
    decreases s, 4
  {
    hide SuffixesAt, FunctionAt, LengthAt, FunTokens, LengthTokens, NarrowSuffix, SuffixedType, Follows;
    match s
    case Stop => NoSuffix(w, toks, pos, n, base);
    case Arr(_, _) =>
      var at := ArraySplits(ws, s.length, s.rest, toks, pos);
      if n < TYPE_DEPTH { ReadSuffix(w, ws, s.rest, toks, at, n + 1, base); }
      ReadArray(w, toks, pos, n, base, s, at, pos + |SuffixTokens(ws, s)|);
    case Fun(_, _) =>
      var inside := FunTokens(ws, s);
      Parenthesised(toks, pos, inside);
      if n < TYPE_DEPTH {
        IsClose(toks, pos + 1 + |inside|);
        ReadFun(w, ws, s, toks, pos + 1, n + 1, base);
      }
      FunSuffix(w, toks, pos, n, base, s, pos + |inside| + 2);
  }

  lemma IsClose(toks: seq<Token>, pos: nat)
    requires pos < |toks| && toks[pos] == Close
    ensures Tok(toks, pos).Close? && Follows(toks, pos)
  {
  }

  lemma NoSuffix(w: Names, toks: seq<Token>, pos: nat, n: nat, base: Type)
    requires pos <= |toks| && Follows(toks, pos) && n <= TYPE_DEPTH
    ensures SuffixesAt(w, toks, pos, n, base) ==
            Reads(n + SuffixDepth(Stop) <= TYPE_DEPTH && NarrowSuffix(Stop), SuffixedType(Stop, base), pos)
  {
  }

  lemma FunSuffix(w: Names, toks: seq<Token>, pos: nat, n: nat, base: Type, s: Suffix, end: nat)
    requires s.Fun? && pos < |toks| && toks[pos] == Open && n <= TYPE_DEPTH
    requires n < TYPE_DEPTH ==> FunctionAt(w, toks, pos + 1, n + 1, base) ==
                                Reads(n + 1 + ListDepth(s.params, 0) <= TYPE_DEPTH && NarrowSuffix(s),
                                      SuffixedType(s, base), end)
    ensures SuffixesAt(w, toks, pos, n, base) ==
            Reads(n + SuffixDepth(s) <= TYPE_DEPTH && NarrowSuffix(s), SuffixedType(s, base), end)
  {
    hide FunctionAt, NarrowSuffix, SuffixedType;
  }

  lemma ReadArray(w: Names, toks: seq<Token>, pos: nat, n: nat, base: Type, s: Suffix, at: nat, end: nat)
    requires s.Arr? && pos < |toks| && toks[pos] == LBracket && n <= TYPE_DEPTH
    requires LengthAt(toks, pos + 1) == Some((s.length, at))
    requires n < TYPE_DEPTH ==> SuffixesAt(w, toks, at, n + 1, base) ==
                                Reads(n + 1 + SuffixDepth(s.rest) <= TYPE_DEPTH && NarrowSuffix(s.rest),
                                      SuffixedType(s.rest, base), end)
    ensures SuffixesAt(w, toks, pos, n, base) ==
            Reads(n + SuffixDepth(s) <= TYPE_DEPTH && NarrowSuffix(s), SuffixedType(s, base), end)
  {
  }

  lemma ArraySplits(ws: Words, length: int, rest: Suffix, toks: seq<Token>, pos: nat) returns (at: nat)
    requires Has(toks, pos, SuffixTokens(ws, Arr(length, rest)))
    ensures pos < |toks| && toks[pos] == LBracket && LengthAt(toks, pos + 1) == Some((length, at))
    ensures Has(toks, at, SuffixTokens(ws, rest))
    ensures at + |SuffixTokens(ws, rest)| == pos + |SuffixTokens(ws, Arr(length, rest))|
  {
    var head := LengthTokens(length);
    assert SuffixTokens(ws, Arr(length, rest)) == [LBracket] + (head + SuffixTokens(ws, rest));
    HasHead(toks, pos, LBracket, head + SuffixTokens(ws, rest));
    HasBoth(toks, pos + 1, head, SuffixTokens(ws, rest));
    LengthHere(toks, pos + 1, length);
    at := pos + 1 + |head|;
  }

  lemma {:induction false} ReadFun(w: Names, ws: Words, s: Suffix, toks: seq<Token>, pos: nat, n: nat, base: Type)
    requires s.Fun? && ProperSuffix(w, ws, s) && n <= TYPE_DEPTH
    requires Has(toks, pos, FunTokens(ws, s)) && Tok(toks, pos + |FunTokens(ws, s)|).Close?
    ensures FunctionAt(w, toks, pos, n, base) ==
            Reads(n + ListDepth(s.params, 0) <= TYPE_DEPTH && NarrowSuffix(s), SuffixedType(s, base),
                  pos + |FunTokens(ws, s)| + 1)
    decreases s, 3
  {
    hide ParamsAt, ListTokens, TypeAt;
    FunStart(w, ws, s, toks, pos);
    if s.params == [] && !s.variadic {
      ReadVoid(w, ws, toks, pos, n);
    } else {
      ReadList(w, ws, s.params, 0, s.variadic, toks, pos, n, []);
      ListIsFun(w, ws, s, toks, pos, n, base);
    }
  }

  lemma ListIsFun(w: Names, ws: Words, s: Suffix, toks: seq<Token>, pos: nat, n: nat, base: Type)
    requires s.Fun? && (s.params != [] || s.variadic) && pos <= |toks|
    requires |s.params| == 1 && !s.variadic ==> TypeOf(s.params[0]) != Void
    requires !Tok(toks, pos).Close? && Tok(toks, pos + |FunTokens(ws, s)|).Close?
    requires ParamsAt(w, toks, pos, n, []) ==
             ReadsList(ListFits(s.params, 0, n), [] + Types(s.params, 0), s.variadic, pos + |FunTokens(ws, s)|)
    ensures FunctionAt(w, toks, pos, n, base) ==
            Reads(n + ListDepth(s.params, 0) <= TYPE_DEPTH && NarrowSuffix(s), SuffixedType(s, base),
                  pos + |FunTokens(ws, s)| + 1)
  {
    var types := Types(s.params, 0);
    assert [] + types == types;
    if |s.params| == 1 { assert types[0] == TypeOf(s.params[0]); }
  }

  /** `(void)` takes no parameter. */
  lemma ReadVoid(w: Names, ws: Words, toks: seq<Token>, pos: nat, n: nat)
    requires Spelled(w, ws, Void) && n <= TYPE_DEPTH
    requires Has(toks, pos, WordTokens(ws(Void))) && Tok(toks, pos + |ws(Void)|).Close?
    ensures ParamsAt(w, toks, pos, n, []) == Some(([Void], false, pos + |ws(Void)|))
  {
    WordsHere(toks, pos, ws(Void));
    HasFirst(toks, pos, WordTokens(ws(Void)));
    var e := pos + |ws(Void)|;
    assert BaseAt(w, toks, pos) == Some((Void, e));
    assert DeclaratorAt(w, toks, e, n, Void) == Some((Void, e));
    assert [] + [Void] == [Void];
  }

  lemma {:induction false} ReadList(w: Names, ws: Words, ps: seq<TypeName>, i: nat, variadic: bool, toks: seq<Token>,
                                    pos: nat, n: nat, before: seq<Type>)
    requires i <= |ps| && (i < |ps| || variadic) && ProperList(w, ws, ps, i) && n <= TYPE_DEPTH && |before| == i
    requires i <= PARAMS
    requires var s := ListTokens(ws, ps, i, variadic);
             Has(toks, pos, s) && Tok(toks, pos + |s|).Close?
    ensures ParamsAt(w, toks, pos, n, before) ==
            ReadsList(ListFits(ps, i, n), before + Types(ps, i), variadic, pos + |ListTokens(ws, ps, i, variadic)|)
    decreases ps, |ps| - i
  {
    if i == |ps| {
      HasFirst(toks, pos, [Dots]);
      assert before + Types(ps, i) == before;
    } else if i + 1 < |ps| || variadic {
      var at := pos + |Spelling(ws, ps[i])|;
      var end := ListSplits(ws, ps, i, variadic, toks, pos);
      ReadType(w, ws, ps[i], toks, pos, n);
      WordFirst(ws, w, ps[i], toks, pos);
      if i < PARAMS { ReadList(w, ws, ps, i + 1, variadic, toks, at + 1, n, before + [TypeOf(ps[i])]); }
      MoreParams(w, ps, i, variadic, toks, pos, n, before, at, end);
    } else {
      ReadLast(w, ws, ps, i, toks, pos, n, before);
    }
  }

  lemma ListSplits(ws: Words, ps: seq<TypeName>, i: nat, variadic: bool, toks: seq<Token>, pos: nat) returns (end: nat)
    requires i < |ps| && (i + 1 < |ps| || variadic) && Has(toks, pos, ListTokens(ws, ps, i, variadic))
    ensures Has(toks, pos, Spelling(ws, ps[i])) && Tok(toks, pos + |Spelling(ws, ps[i])|) == Comma
    ensures Has(toks, pos + |Spelling(ws, ps[i])| + 1, ListTokens(ws, ps, i + 1, variadic))
    ensures end == pos + |ListTokens(ws, ps, i, variadic)|
    ensures end == pos + |Spelling(ws, ps[i])| + 1 + |ListTokens(ws, ps, i + 1, variadic)|
  {
    var one, rest := Spelling(ws, ps[i]), ListTokens(ws, ps, i + 1, variadic);
    HasBoth(toks, pos, one, [Comma] + rest);
    HasHead(toks, pos + |one|, Comma, rest);
    end := pos + |ListTokens(ws, ps, i, variadic)|;
  }

  lemma MoreParams(w: Names, ps: seq<TypeName>, i: nat, variadic: bool, toks: seq<Token>, pos: nat, n: nat,
                   before: seq<Type>, at: nat, end: nat)
    requires i < |ps| && (i + 1 < |ps| || variadic) && |before| == i <= PARAMS && pos <= |toks|
    requires !Tok(toks, pos).Dots? && TypeAt(w, toks, pos, n) == Reads(Fits(ps[i], n), TypeOf(ps[i]), at)
    requires at < |toks| && toks[at] == Comma
    requires i < PARAMS ==>
               ParamsAt(w, toks, at + 1, n, before + [TypeOf(ps[i])]) ==
               ReadsList(ListFits(ps, i + 1, n), before + [TypeOf(ps[i])] + Types(ps, i + 1), variadic, end)
    ensures ParamsAt(w, toks, pos, n, before) == ReadsList(ListFits(ps, i, n), before + Types(ps, i), variadic, end)
  {
    OneParam(w, toks, pos, n, before);
    ListFitsOne(ps, i, n);
    assert (before + [TypeOf(ps[i])]) + Types(ps, i + 1) == before + Types(ps, i);
  }

  lemma {:induction false} ReadLast(w: Names, ws: Words, ps: seq<TypeName>, i: nat, toks: seq<Token>, pos: nat, n: nat,
                                    before: seq<Type>)
    requires i + 1 == |ps| && ProperList(w, ws, ps, i) && n <= TYPE_DEPTH && |before| == i && i <= PARAMS
    requires Has(toks, pos, Spelling(ws, ps[i])) && Tok(toks, pos + |Spelling(ws, ps[i])|).Close?
    ensures ParamsAt(w, toks, pos, n, before) ==
            ReadsList(ListFits(ps, i, n), before + Types(ps, i), false, pos + |Spelling(ws, ps[i])|)
    decreases ps, 0
  {
    ReadType(w, ws, ps[i], toks, pos, n);
    WordFirst(ws, w, ps[i], toks, pos);
    OneParam(w, toks, pos, n, before);
    ListFitsOne(ps, i, n);
    assert Types(ps, i + 1) == [];
    assert Types(ps, i) == [TypeOf(ps[i])];
    assert ListFits(ps, i, n) <==> Fits(ps[i], n) && i < PARAMS;
  }

  lemma OneParam(w: Names, toks: seq<Token>, pos: nat, n: nat, before: seq<Type>)
    requires pos <= |toks| && !Tok(toks, pos).Dots?
    ensures var one := TypeAt(w, toks, pos, n);
            ParamsAt(w, toks, pos, n, before) ==
            if one.None? || |before| == PARAMS then None
            else if Tok(toks, one.value.1).Comma? then ParamsAt(w, toks, one.value.1 + 1, n, before + [one.value.0])
            else Some((before + [one.value.0], false, one.value.1))
  {
  }

  lemma WordFirst(ws: Words, w: Names, p: TypeName, toks: seq<Token>, pos: nat)
    requires Proper(w, ws, p) && Has(toks, pos, Spelling(ws, p))
    ensures Tok(toks, pos).Word?
  {
    HasBoth(toks, pos, WordTokens(ws(p.base)), DeclTokens(ws, p.decl));
    HasFirst(toks, pos, WordTokens(ws(p.base)));
  }

  /** The parse of a whole spelling, with `n` levels of other parses in
      progress. */
  lemma ReadSpelling(w: Names, ws: Words, p: TypeName, n: nat)
    requires Proper(w, ws, p)
    ensures Parse(w, Spelling(ws, p), n) == if Fits(p, n + 1) then Some(TypeOf(p)) else None
  {
    var toks := Spelling(ws, p);
    if n < TYPE_DEPTH { ReadType(w, ws, p, toks, 0, n + 1); }
  }

  /** A list that is empty takes no parameter, as `(void)` does. */
  lemma EmptyList(w: Names, words: seq<string>, base: Type, n: nat)
    requires words != [] && w.base(words) == Some(base) && n < 255
    ensures Parse(w, WordTokens(words) + [Open, Close], n) == Some(Function(base, [], false))
  {
    var toks := WordTokens(words) + [Open, Close];
    var at := |words|;
    assert toks[at] == Open && toks[at + 1] == Close;
    assert Has(toks, 0, WordTokens(words));
    WordsHere(toks, 0, words);
    assert BaseAt(w, toks, 0) == Some((base, at));
    assert FunctionAt(w, toks, at + 1, n + 2, base) == Some((Function(base, [], false), at + 2));
    assert SuffixesAt(w, toks, at, n + 1, base) == Some((Function(base, [], false), at + 2));
    assert DeclaratorAt(w, toks, at, n + 1, base) == Some((Function(base, [], false), at + 2));
    assert TypeAt(w, toks, 0, n + 1) == Some((Function(base, [], false), at + 2));
  }

  // ---- Every type of C has a spelling ----

  /** The types C has a name for: a function returns neither an array nor a
      function, and takes no lone `void`. */
  predicate IsC(t: Type)
    decreases t
  {
    match t
    case Pointer(to) => IsC(to)
    case Array(length, to) => -1 <= length <= 0x7fff_ffff_ffff_ffff && IsC(to)
    case Function(to, params, variadic) =>
      && IsC(to) && !to.Array? && !to.Function? && AllC(params, 0) && !(params == [Void] && !variadic)
    case _ => true
  }

  predicate AllC(ts: seq<Type>, i: nat)
    requires i <= |ts|
    decreases ts, |ts| - i
  {
    i == |ts| || (IsC(ts[i]) && AllC(ts, i + 1))
  }

  /** The declarator with one more suffix, nearest to the base; a pointer is
      grouped first. */
  function Append(d: Declarator, last: Suffix): (d': Declarator) {
    match d
    case Ptr(_, _) => Group(d, last)
    case Direct(suffix) => Direct(Join(suffix, last))
    case Group(inner, suffix) => Group(inner, Join(suffix, last))
  }

  function Join(s: Suffix, last: Suffix): (s': Suffix) {
    match s
    case Stop => last
    case Arr(length, rest) => Arr(length, Join(rest, last))
    case Fun(_, _) => s
  }

  predicate EndsOpen(s: Suffix) {
    s.Stop? || (s.Arr? && EndsOpen(s.rest))
  }

  predicate TakesSuffix(d: Declarator) {
    match d
    case Ptr(_, _) => true
    case Direct(suffix) => EndsOpen(suffix)
    case Group(_, suffix) => EndsOpen(suffix)
  }

  /** The type name of `t` around what its declarator declares: from the
      outside in, as C reads. */
  function Named(t: Type, d: Declarator): (p: TypeName)
    decreases t
  {
    match t
    case Pointer(to) => Named(to, Ptr([], d))
    case Array(length, to) => Named(to, Append(d, Arr(length, Stop)))
    case Function(to, params, variadic) => Named(to, Append(d, Fun(AllNamed(params, 0), variadic)))
    case _ => TypeName(t, d)
  }

  function AllNamed(ts: seq<Type>, i: nat): (ps: seq<TypeName>)
    requires i <= |ts|
    ensures |ps| == |ts| - i
    decreases ts, |ts| - i
  {
    if i == |ts| then [] else [Named(ts[i], Direct(Stop))] + AllNamed(ts, i + 1)
  }

  lemma {:induction false} JoinedType(s: Suffix, last: Suffix, base: Type)
    requires EndsOpen(s)
    ensures SuffixedType(Join(s, last), base) == SuffixedType(s, SuffixedType(last, base))
    decreases s
  {
    if s.Arr? { JoinedType(s.rest, last, base); }
  }

  lemma {:induction false} JoinedProper(w: Names, ws: Words, s: Suffix, last: Suffix)
    requires EndsOpen(s) && ProperSuffix(w, ws, s) && ProperSuffix(w, ws, last)
    ensures ProperSuffix(w, ws, Join(s, last)) && (EndsOpen(last) ==> EndsOpen(Join(s, last)))
    decreases s
  {
    if s.Arr? { JoinedProper(w, ws, s.rest, last); }
  }

  lemma Appended(w: Names, ws: Words, d: Declarator, last: Suffix, base: Type)
    requires TakesSuffix(d) && ProperDecl(w, ws, d) && ProperSuffix(w, ws, last)
    ensures DeclaredType(Append(d, last), base) == DeclaredType(d, SuffixedType(last, base))
    ensures ProperDecl(w, ws, Append(d, last)) && (EndsOpen(last) ==> TakesSuffix(Append(d, last)))
  {
    if !d.Ptr? {
      JoinedType(d.suffix, last, base);
      JoinedProper(w, ws, d.suffix, last);
    }
  }

  /** The base types a spelling of the type names; `void` is one where a
      function takes nothing. */
  function Bases(t: Type): (bases: set<Type>)
    decreases t
  {
    match t
    case Pointer(to) => Bases(to)
    case Array(_, to) => Bases(to)
    case Function(to, params, variadic) =>
      Bases(to) + AllBases(params, 0) + if params == [] && !variadic then {Void} else {}
    case _ => {t}
  }

  function AllBases(ts: seq<Type>, i: nat): (bases: set<Type>)
    requires i <= |ts|
    decreases ts, |ts| - i
  {
    if i == |ts| then {} else Bases(ts[i]) + AllBases(ts, i + 1)
  }

  /** Each of the base types has words the specifiers read back. */
  predicate WordsFor(w: Names, ws: Words, bases: set<Type>) {
    forall b :: b in bases ==> Spelled(w, ws, b)
  }

  /** The header has a name for the base type. */
  ghost predicate IsNamed(w: Names, b: Type) {
    exists words :: words != [] && w.base(words) == Some(b)
  }

  ghost function WordsOf(w: Names, b: Type): (words: seq<string>)
    ensures IsNamed(w, b) ==> words != [] && w.base(words) == Some(b)
  {
    if IsNamed(w, b) then
      var words :| words != [] && w.base(words) == Some(b);
      words
    else []
  }

  /** The base types a header names all have words at once, so every type made
      of them has a spelling. */
  lemma WordsExist(w: Names, bases: set<Type>) returns (ws: Words)
    requires forall b :: b in bases ==> IsNamed(w, b)
    ensures WordsFor(w, ws, bases)
  {
    ws := b => WordsOf(w, b);
    forall b | b in bases ensures Spelled(w, ws, b) { assert ws(b) == WordsOf(w, b); }
  }

  lemma {:induction false} NamedIs(w: Names, ws: Words, t: Type, d: Declarator)
    requires WordsFor(w, ws, Bases(t)) && IsC(t) && ProperDecl(w, ws, d)
    requires t.Array? || t.Function? ==> TakesSuffix(d)
    ensures TypeOf(Named(t, d)) == DeclaredType(d, t) && Proper(w, ws, Named(t, d))
    decreases t, 1
  {
    match t
    case Pointer(to) => NamedIs(w, ws, to, Ptr([], d));
    case Array(length, to) =>
      var last := Arr(length, Stop);
      assert ProperSuffix(w, ws, Stop) && EndsOpen(Stop) && SuffixedType(Stop, to) == to;
      assert EndsOpen(last) && SuffixedType(last, to) == t;
      Appended(w, ws, d, last, to);
      NamedIs(w, ws, to, Append(d, last));
    case Function(to, params, variadic) =>
      AllNamedAre(w, ws, params, 0);
      var last := Fun(AllNamed(params, 0), variadic);
      assert Types(last.params, 0) == params[0..] == params;
      if |params| == 1 { assert Types(last.params, 0)[0] == TypeOf(last.params[0]) && params == [params[0]]; }
      Appended(w, ws, d, last, to);
      NamedIs(w, ws, to, Append(d, last));
    case _ =>
  }

  lemma {:induction false} AllNamedAre(w: Names, ws: Words, ts: seq<Type>, i: nat)
    requires i <= |ts| && WordsFor(w, ws, AllBases(ts, i)) && AllC(ts, i)
    ensures Types(AllNamed(ts, i), 0) == ts[i..] && ProperList(w, ws, AllNamed(ts, i), 0)
    decreases ts, |ts| - i
  {
    if i < |ts| {
      NamedIs(w, ws, ts[i], Direct(Stop));
      AllNamedAre(w, ws, ts, i + 1);
      var one, rest := Named(ts[i], Direct(Stop)), AllNamed(ts, i + 1);
      TypesBehind(one, rest, 0);
      ProperBehind(w, ws, one, rest, 0);
      assert ts[i..] == [ts[i]] + ts[i + 1..];
    }
  }

  lemma {:induction false} TypesBehind(one: TypeName, rest: seq<TypeName>, i: nat)
    requires i <= |rest|
    ensures Types([one] + rest, i + 1) == Types(rest, i)
    decreases |rest| - i
  {
    hide TypeOf;
    if i < |rest| {
      assert ([one] + rest)[i + 1] == rest[i];
      TypesBehind(one, rest, i + 1);
    }
  }

  lemma {:induction false} ProperBehind(w: Names, ws: Words, one: TypeName, rest: seq<TypeName>, i: nat)
    requires i <= |rest|
    ensures ProperList(w, ws, [one] + rest, i + 1) == ProperList(w, ws, rest, i)
    decreases |rest| - i
  {
    hide Proper;
    if i < |rest| {
      assert ([one] + rest)[i + 1] == rest[i];
      ProperBehind(w, ws, one, rest, i + 1);
    }
  }

  /** The spelling C gives a type. */
  function SpellingOf(ws: Words, t: Type): (toks: seq<Token>) {
    Spelling(ws, Named(t, Direct(Stop)))
  }

  /** The round trip of every type of C: the parser reads its spelling back
      exactly where it nests within the bound and no list is too long. */
  lemma RoundTrip(w: Names, ws: Words, t: Type, n: nat)
    requires WordsFor(w, ws, Bases(t)) && IsC(t)
    ensures Parse(w, SpellingOf(ws, t), n) == if Fits(Named(t, Direct(Stop)), n + 1) then Some(t) else None
  {
    NamedIs(w, ws, t, Direct(Stop));
    ReadSpelling(w, ws, Named(t, Direct(Stop)), n);
  }
}
