/** How the precedence annotations of the expression rules nest a flat run of
    operands and operators.

    Read left to right, an expression is a sequence of pieces: prefix operators,
    operands (the primaries), infix operators, and the postfix forms `.name`,
    `[index]` and `(arguments)`. The rule table fixes the nesting:
    - `comparison` and `binary_operation` are `prec.left(1)`: any chain of them
      groups to the left, whatever the operators;
    - `fn_call` is `prec.left(1)`: an argument list applies to the whole
      expression on its left at that level, so `a + f(x)` is `(a + f)(x)`;
    - `unary_operation` is `prec.right(2)`: prefixes nest to the right and bind
      tighter than every level-1 operator;
    - `property_access` and `subscript` are `prec.left(2)`: they group to the
      left; at the same level as a prefix the right associativity of the prefix
      keeps the postfix inside it, so `-a.b` is `-(a.b)`.

    `Group` is that nesting as a deterministic function; `Syntax.Resolved`
    describes the trees it builds; `Flatten` turns a tree back into its pieces. */
module Grouping {
  import opened Wrappers
  import opened Separated
  import opened Syntax

  datatype Infix = CmpInfix(cmp: CmpOp) | BinInfix(op: BinOp)

  datatype Piece =
    | Operand(atom: Expr)
    | Prefix(unop: UnOp)
    | InfixOp(infix: Infix)
    | Dot(name: string)
    | Index(index: Expr)
    | Apply(args: Bracketed<Arg>)

  /** The pieces of an expression, left to right, with the nesting forgotten.
      Bracketed sub-expressions (an index, arguments, list and dict items) stay
      whole inside their piece. */
  function Flatten(e: Expr): seq<Piece>
  {
    match e
    case Comparison(l, op, r) => Flatten(l) + [InfixOp(CmpInfix(op))] + Flatten(r)
    case Binary(l, op, r) => Flatten(l) + [InfixOp(BinInfix(op))] + Flatten(r)
    case Unary(op, x) => [Prefix(op)] + Flatten(x)
    case Call(f, args) => Flatten(f) + [Apply(args)]
    case Property(o, n) => Flatten(o) + [Dot(n)]
    case Subscript(o, i) => Flatten(o) + [Index(i)]
    case _ => [Operand(e)]
  }

  /** A run of pieces starts with an operand or a prefix. */
  lemma {:induction false} FlattenStarts(e: Expr)
    ensures |Flatten(e)| > 0 && (Flatten(e)[0].Operand? || Flatten(e)[0].Prefix?)
  {
    match e
    case Comparison(l, _, r) => FlattenStarts(l);
    case Binary(l, _, r) => FlattenStarts(l);
    case Unary(_, x) =>
    case Call(f, _) => FlattenStarts(f);
    case Property(o, _) => FlattenStarts(o);
    case Subscript(o, _) => FlattenStarts(o);
    case ListLit(_) =>
    case DictLit(_) =>
    case Str(_) =>
    case Bool(_) =>
    case Int(_) =>
    case Float(_) =>
    case Ident(_) =>
  }

  /** A run of pieces ends with an operand or a postfix. */
  lemma {:induction false} FlattenEnds(e: Expr)
    ensures |Flatten(e)| > 0
    ensures !Flatten(e)[|Flatten(e)| - 1].InfixOp? && !Flatten(e)[|Flatten(e)| - 1].Prefix?
  {
    match e
    case Comparison(l, _, r) => FlattenEnds(r);
    case Binary(l, _, r) => FlattenEnds(r);
    case Unary(_, x) => FlattenEnds(x);
    case Call(f, _) =>
    case Property(o, _) =>
    case Subscript(o, _) =>
    case ListLit(_) =>
    case DictLit(_) =>
    case Str(_) =>
    case Bool(_) =>
    case Int(_) =>
    case Float(_) =>
    case Ident(_) =>
  }

  function Combine(l: Expr, op: Infix, r: Expr): Expr
  {
    match op
    case CmpInfix(c) => Comparison(l, c, r)
    case BinInfix(b) => Binary(l, b, r)
  }

  // ---------------------------------------------------------------------------
  // Grouping a flat run of pieces
  // ---------------------------------------------------------------------------

  predicate IsPost(p: Piece) { p.Dot? || p.Index? }

  predicate NoPostHead(f: seq<Piece>) { f == [] || !IsPost(f[0]) }

  function ApplyPost(acc: Expr, p: Piece): (r: Expr)
    requires IsPost(p)
  {
    if p.Dot? then Property(acc, p.name) else Subscript(acc, p.index)
  }

  /** Takes every precedence-2 postfix at the front of `f` and nests them to the left. */
  function ParsePosts(acc: Expr, f: seq<Piece>): (r: (Expr, seq<Piece>))
    ensures Flatten(r.0) + r.1 == Flatten(acc) + f
    ensures |r.1| <= |f| && NoPostHead(r.1)
    ensures AtomPosts(acc) ==> AtomPosts(r.0)
    ensures CallPosts(acc) ==> CallPosts(r.0)
    decreases |f|
  {
    if f != [] && IsPost(f[0]) then
      var r := ParsePosts(ApplyPost(acc, f[0]), f[1..]);
      assert Flatten(acc) + f == Flatten(acc) + [f[0]] + f[1..];
      r
    else (acc, f)
  }

  /** Reads one operand of a level-1 operator from the front of `f`: prefixes nest
      to the right around a primary and its postfixes. */
  function ParseUnit(f: seq<Piece>): (r: Option<(Expr, seq<Piece>)>)
    ensures r.Some? ==> Flatten(r.value.0) + r.value.1 == f
    ensures r.Some? ==> UnitLevel(r.value.0) && |r.value.1| < |f| && NoPostHead(r.value.1)
    decreases |f|
  {
    if f == [] then None
    else match f[0]
      case Prefix(op) =>
        (match ParseUnit(f[1..])
         case Some((x, rest)) =>
           assert f == [f[0]] + f[1..];
           Some((Unary(op, x), rest))
         case None => None)
      case Operand(a) =>
        if Primary(a) then
          assert f == [f[0]] + f[1..];
          Some(ParsePosts(a, f[1..]))
        else None
      case _ => None
  }

  /** Combining with an operand keeps the pieces in order and the tree resolved. */
  lemma FlattenCombine(acc: Expr, op: Infix, u: Expr, f: seq<Piece>, rest: seq<Piece>)
    requires f != [] && f[0] == InfixOp(op) && Flatten(u) + rest == f[1..] && UnitLevel(u)
    ensures Flatten(Combine(acc, op, u)) + rest == Flatten(acc) + f
    ensures Resolved(acc) ==> Resolved(Combine(acc, op, u))
  {
    var c := Combine(acc, op, u);
    assert Flatten(c) == Flatten(acc) + [InfixOp(op)] + Flatten(u) by {
      match op
      case CmpInfix(_) =>
      case BinInfix(_) =>
    }
    calc {
      Flatten(c) + rest;
      Flatten(acc) + ([InfixOp(op)] + (Flatten(u) + rest));
      Flatten(acc) + ([f[0]] + f[1..]);
      { assert [f[0]] + f[1..] == f; }
      Flatten(acc) + f;
    }
  }

  /** Folds the rest of a level-1 chain onto `acc`: an infix operator combines
      everything so far with the next operand, an argument list calls everything
      so far (and the postfixes after it apply to that call). */
  function ParseChain(acc: Expr, f: seq<Piece>): (r: Option<Expr>)
    ensures r.Some? ==> Flatten(r.value) == Flatten(acc) + f
    ensures r.Some? && Resolved(acc) ==> Resolved(r.value)
    decreases |f|
  {
    if f == [] then Some(acc)
    else match f[0]
      case InfixOp(op) =>
        (match ParseUnit(f[1..])
         case Some((u, rest)) =>
           FlattenCombine(acc, op, u, f, rest);
           ParseChain(Combine(acc, op, u), rest)
         case None => None)
      case Apply(args) =>
        var (e, rest) := ParsePosts(Call(acc, args), f[1..]);
        assert f == [f[0]] + f[1..];
        assert Resolved(acc) ==> CallPosts(Call(acc, args));
        ParseChain(e, rest)
      case _ => None
  }

  /** The expression tree the precedence annotations give to a flat run of pieces,
      or None when the pieces do not form an expression. */
  function Group(f: seq<Piece>): (r: Option<Expr>)
    ensures r.Some? ==> Flatten(r.value) == f && Resolved(r.value)
  {
    match ParseUnit(f)
    case Some((u, rest)) => ParseChain(u, rest)
    case None => None
  }

  // ---------------------------------------------------------------------------
  // Every resolved tree is what Group builds from its pieces
  // ---------------------------------------------------------------------------

  lemma {:induction false} AtomPostsParse(u: Expr, r: seq<Piece>)
    requires AtomPosts(u)
    ensures ParseUnit(Flatten(u) + r) == Some(ParsePosts(u, r))
    decreases u
  {
    if u.Property? || u.Subscript? {
      var tail := [if u.Property? then Dot(u.property) else Index(u.index)] + r;
      assert Flatten(u) + r == Flatten(u.obj) + tail;
      AtomPostsParse(u.obj, tail);
      assert tail[1..] == r;
    } else {
      assert Flatten(u) == [Operand(u)];
      assert (Flatten(u) + r)[1..] == r;
    }
  }

  lemma {:induction false} UnitParse(u: Expr, r: seq<Piece>)
    requires UnitLevel(u) && NoPostHead(r)
    ensures ParseUnit(Flatten(u) + r) == Some((u, r))
    decreases u
  {
    if u.Unary? {
      assert Flatten(u) + r == [Prefix(u.unop)] + (Flatten(u.operand) + r);
      UnitParse(u.operand, r);
    } else {
      AtomPostsParse(u, r);
    }
  }

  lemma {:induction false} ChainParse(e: Expr, r: seq<Piece>)
    requires Resolved(e) && NoPostHead(r)
    ensures Group(Flatten(e) + r) == ParseChain(e, r)
    decreases e, 1
  {
    if UnitLevel(e) {
      UnitParse(e, r);
    } else if CallPosts(e) {
      CallPostsParse(e, r);
    } else {
      InfixParse(e, r);
    }
  }

  lemma {:induction false} InfixParse(e: Expr, r: seq<Piece>)
    requires (e.Comparison? || e.Binary?) && Resolved(e.left) && UnitLevel(e.right) && NoPostHead(r)
    ensures Group(Flatten(e) + r) == ParseChain(e, r)
    decreases e, 0
  {
    var op := if e.Comparison? then CmpInfix(e.cmp) else BinInfix(e.op);
    var tail := [InfixOp(op)] + (Flatten(e.right) + r);
    assert Combine(e.left, op, e.right) == e;
    assert Flatten(e) + r == Flatten(e.left) + tail;
    ChainParse(e.left, tail);
    UnitParse(e.right, r);
    ChainInfixStep(e.left, op, e.right, r);
  }

  /** One step of the chain: an operator and an operand that reads back as itself. */
  lemma ChainInfixStep(acc: Expr, op: Infix, u: Expr, r: seq<Piece>)
    requires ParseUnit(Flatten(u) + r) == Some((u, r))
    ensures ParseChain(acc, [InfixOp(op)] + (Flatten(u) + r)) == ParseChain(Combine(acc, op, u), r)
  {
    var f := [InfixOp(op)] + (Flatten(u) + r);
    assert f[1..] == Flatten(u) + r;
  }

  lemma {:induction false} CallPostsParse(e: Expr, r: seq<Piece>)
    requires CallPosts(e)
    ensures Group(Flatten(e) + r) == ParseChain(ParsePosts(e, r).0, ParsePosts(e, r).1)
    decreases e, 0
  {
    match e
    case Call(f, args) =>
      var tail := [Apply(args)] + r;
      assert Flatten(e) + r == Flatten(f) + tail;
      ChainParse(f, tail);
      assert tail[1..] == r;
    case Property(o, n) =>
      var tail := [Dot(n)] + r;
      assert Flatten(e) + r == Flatten(o) + tail;
      CallPostsParse(o, tail);
      assert tail[1..] == r;
    case Subscript(o, i) =>
      var tail := [Index(i)] + r;
      assert Flatten(e) + r == Flatten(o) + tail;
      CallPostsParse(o, tail);
      assert tail[1..] == r;
  }

  /** Grouping is the inverse of flattening on the trees the precedences allow. */
  lemma GroupFlatten(e: Expr)
    requires Resolved(e)
    ensures Group(Flatten(e)) == Some(e)
  {
    ChainParse(e, []);
    assert Flatten(e) + [] == Flatten(e);
  }

  /** The grouping is unambiguous: two resolved trees with the same pieces are equal. */
  lemma GroupingUnique(e1: Expr, e2: Expr)
    requires Resolved(e1) && Resolved(e2) && Flatten(e1) == Flatten(e2)
    ensures e1 == e2
  {
    GroupFlatten(e1);
    GroupFlatten(e2);
  }

  // ---------------------------------------------------------------------------
  // The pieces of every expression group
  // ---------------------------------------------------------------------------

  /** The postfix piece that puts `n` on top of its object. */
  function PostOf(n: Expr): (p: Piece)
    requires n.Property? || n.Subscript?
    ensures IsPost(p) && ApplyPost(n.obj, p) == n
  {
    if n.Property? then Dot(n.property) else Index(n.index)
  }

  /** A postfix written after a resolved tree: it goes onto the rightmost operand,
      inside any prefixes there. */
  function PostInto(n: Expr, p: Piece): (r: Expr)
    requires Resolved(n) && IsPost(p)
    ensures Resolved(r) && Flatten(r) == Flatten(n) + [p]
    ensures UnitLevel(n) ==> UnitLevel(r)
    decreases n
  {
    if AtomPosts(n) then ApplyPost(n, p)
    else if UnitLevel(n) then Unary(n.unop, PostInto(n.operand, p))
    else if CallPosts(n) then ApplyPost(n, p)
    else
      var u := PostInto(n.right, p);
      assert Flatten(n.left) + [InfixOp(if n.Comparison? then CmpInfix(n.cmp) else BinInfix(n.op))] + Flatten(u)
          == Flatten(n) + [p];
      if n.Comparison? then Comparison(n.left, n.cmp, u) else Binary(n.left, n.op, u)
  }

  /** A prefix written before a resolved tree: it goes onto the leftmost operand,
      beneath the level-1 operators and calls. */
  function PrefixInto(op: UnOp, n: Expr): (r: Expr)
    requires Resolved(n)
    ensures Resolved(r) && Flatten(r) == [Prefix(op)] + Flatten(n)
    ensures CallPosts(n) ==> CallPosts(r)
    decreases n
  {
    if CallPosts(n) then
      if n.Call? then Call(PrefixInto(op, n.fnName), n.args)
      else ApplyPost(PrefixInto(op, n.obj), PostOf(n))
    else if UnitLevel(n) then Unary(op, n)
    else
      var l := PrefixInto(op, n.left);
      if n.Comparison? then Comparison(l, n.cmp, n.right) else Binary(l, n.op, n.right)
  }

  /** An infix operator joining two resolved trees: it takes the whole left tree
      and goes beneath the right tree's level-1 operators and calls. */
  function AppendInfix(l: Expr, op: Infix, n: Expr): (r: Expr)
    requires Resolved(l) && Resolved(n)
    ensures Resolved(r) && Flatten(r) == Flatten(l) + [InfixOp(op)] + Flatten(n)
    ensures CallPosts(n) ==> CallPosts(r)
    decreases n
  {
    if CallPosts(n) then
      if n.Call? then Call(AppendInfix(l, op, n.fnName), n.args)
      else ApplyPost(AppendInfix(l, op, n.obj), PostOf(n))
    else if UnitLevel(n) then
      FlattenCombine(l, op, n, [InfixOp(op)] + Flatten(n), []);
      Combine(l, op, n)
    else
      var m := AppendInfix(l, op, n.left);
      if n.Comparison? then Comparison(m, n.cmp, n.right) else Binary(m, n.op, n.right)
  }

  /** The tree the precedences give to the pieces of any expression. */
  function Norm(e: Expr): (r: Expr)
    ensures Resolved(r) && Flatten(r) == Flatten(e)
  {
    match e
    case Comparison(l, c, x) => AppendInfix(Norm(l), CmpInfix(c), Norm(x))
    case Binary(l, o, x) => AppendInfix(Norm(l), BinInfix(o), Norm(x))
    case Unary(op, x) => PrefixInto(op, Norm(x))
    case Call(f, args) => Call(Norm(f), args)
    case Property(o, n) => PostInto(Norm(o), Dot(n))
    case Subscript(o, i) => PostInto(Norm(o), Index(i))
    case _ => e
  }

  /** The pieces of every expression group, into the resolved tree with those
      pieces; so `Group` fails exactly on runs that flatten no expression. */
  lemma GroupTotal(e: Expr)
    ensures Group(Flatten(e)) == Some(Norm(e))
  {
    GroupFlatten(Norm(e));
  }

  /** A tree already nested as the precedences require is its own normal form. */
  lemma NormKeepsResolved(e: Expr)
    requires Resolved(e)
    ensures Norm(e) == e
  {
    GroupingUnique(Norm(e), e);
  }

  /** Level-1 chains group to the left whatever the operators: an operator and an
      operand written after a whole expression take that expression as their left
      operand. */
  lemma ChainGroupsLeft(e: Expr, op: Infix, u: Expr)
    requires Resolved(e) && UnitLevel(u)
    ensures Group(Flatten(e) + [InfixOp(op)] + Flatten(u)) == Some(Combine(e, op, u))
  {
    GroupFlatten(Combine(e, op, u));
  }

  /** An argument list written after a whole expression calls that expression. */
  lemma CallTakesWholeLeft(e: Expr, args: Bracketed<Arg>)
    requires Resolved(e)
    ensures Group(Flatten(e) + [Apply(args)]) == Some(Call(e, args))
  {
    GroupFlatten(Call(e, args));
  }

  /** Prefixes nest to the right and wrap the postfixes that follow their operand. */
  lemma PrefixWrapsUnit(op: UnOp, u: Expr)
    requires UnitLevel(u)
    ensures Group([Prefix(op)] + Flatten(u)) == Some(Unary(op, u))
  {
    GroupFlatten(Unary(op, u));
  }

  /** `a + b * c` is `(a + b) * c`: arithmetic ignores the usual operator priorities. */
  lemma SumThenProductExample(a: Expr, b: Expr, c: Expr)
    requires a.Ident? && b.Ident? && c.Ident?
    ensures Group([Operand(a), InfixOp(BinInfix(Add)), Operand(b), InfixOp(BinInfix(Mul)), Operand(c)])
         == Some(Binary(Binary(a, Add, b), Mul, c))
  {
    assert UnitLevel(a) && UnitLevel(b) && UnitLevel(c);
    assert Resolved(Binary(a, Add, b));
    assert Flatten(Binary(a, Add, b)) == [Operand(a), InfixOp(BinInfix(Add)), Operand(b)];
    assert Flatten(c) == [Operand(c)];
    assert Flatten(Binary(a, Add, b)) + [InfixOp(BinInfix(Mul))] + Flatten(c)
        == [Operand(a), InfixOp(BinInfix(Add)), Operand(b), InfixOp(BinInfix(Mul)), Operand(c)];
    ChainGroupsLeft(Binary(a, Add, b), BinInfix(Mul), c);
  }

  /** `a < b + c` is `(a < b) + c`: comparison and arithmetic share one level. */
  lemma CompareThenSumExample(a: Expr, b: Expr, c: Expr)
    requires a.Ident? && b.Ident? && c.Ident?
    ensures Group([Operand(a), InfixOp(CmpInfix(Lt)), Operand(b), InfixOp(BinInfix(Add)), Operand(c)])
         == Some(Binary(Comparison(a, Lt, b), Add, c))
  {
    assert UnitLevel(a) && UnitLevel(b) && UnitLevel(c);
    assert Resolved(Comparison(a, Lt, b));
    assert Flatten(Comparison(a, Lt, b)) == [Operand(a), InfixOp(CmpInfix(Lt)), Operand(b)];
    assert Flatten(c) == [Operand(c)];
    assert Flatten(Comparison(a, Lt, b)) + [InfixOp(BinInfix(Add))] + Flatten(c)
        == [Operand(a), InfixOp(CmpInfix(Lt)), Operand(b), InfixOp(BinInfix(Add)), Operand(c)];
    ChainGroupsLeft(Comparison(a, Lt, b), BinInfix(Add), c);
  }

  /** `-a + b` is `(-a) + b`: a prefix binds tighter than every infix operator. */
  lemma PrefixThenSumExample(a: Expr, b: Expr)
    requires a.Ident? && b.Ident?
    ensures Group([Prefix(Neg), Operand(a), InfixOp(BinInfix(Add)), Operand(b)])
         == Some(Binary(Unary(Neg, a), Add, b))
  {
    assert UnitLevel(b) && UnitLevel(Unary(Neg, a));
    assert Flatten(Unary(Neg, a)) == [Prefix(Neg), Operand(a)];
    assert Flatten(b) == [Operand(b)];
    assert Flatten(Unary(Neg, a)) + [InfixOp(BinInfix(Add))] + Flatten(b)
        == [Prefix(Neg), Operand(a), InfixOp(BinInfix(Add)), Operand(b)];
    ChainGroupsLeft(Unary(Neg, a), BinInfix(Add), b);
  }

  /** `-a.b` is `-(a.b)`: the property access stays inside the prefix. */
  lemma PrefixThenPropertyExample(a: Expr)
    requires a.Ident?
    ensures Group([Prefix(Neg), Operand(a), Dot("b")]) == Some(Unary(Neg, Property(a, "b")))
  {
    assert UnitLevel(Property(a, "b"));
    assert Flatten(Property(a, "b")) == [Operand(a), Dot("b")];
    PrefixWrapsUnit(Neg, Property(a, "b"));
  }

  /** `a + f(x)` is `(a + f)(x)`: the argument list calls the whole sum. */
  lemma SumThenCallExample(a: Expr, f: Expr, args: Bracketed<Arg>)
    requires a.Ident? && f.Ident?
    ensures Group([Operand(a), InfixOp(BinInfix(Add)), Operand(f), Apply(args)])
         == Some(Call(Binary(a, Add, f), args))
  {
    assert UnitLevel(a) && UnitLevel(f);
    assert Resolved(Binary(a, Add, f));
    assert Flatten(Binary(a, Add, f)) == [Operand(a), InfixOp(BinInfix(Add)), Operand(f)];
    CallTakesWholeLeft(Binary(a, Add, f), args);
  }
}
