/** The token sequence of each node, left to right: the anonymous strings of its
    rule (`{%`, `for`, `,`, `</` ...) and the lexemes stored in its fields. This is
    the yield of the tree with the whitespace that the parser skips left out. */
module Unparse {
  import opened Wrappers
  import opened Lexical
  import opened Separated
  import opened Syntax
  import opened Grouping

  type Tokens = seq<string>

  /** The tokens of every element of `xs`, in order. */
  function ConcatMap<T>(xs: seq<T>, f: T --> Tokens): Tokens
    requires forall x :: x in xs ==> f.requires(x)
    decreases |xs|
  {
    if |xs| == 0 then [] else f(xs[0]) + ConcatMap(xs[1..], f)
  }

  lemma {:induction false} ConcatMapAppend<T>(xs: seq<T>, ys: seq<T>, f: T --> Tokens)
    requires forall x :: x in xs + ys ==> f.requires(x)
    ensures ConcatMap(xs + ys, f) == ConcatMap(xs, f) + ConcatMap(ys, f)
    decreases |xs|
  {
    if |xs| > 0 {
      assert (xs + ys)[1..] == xs[1..] + ys;
      ConcatMapAppend(xs[1..], ys, f);
    } else {
      assert xs + ys == ys;
    }
  }

  // ---------------------------------------------------------------------------
  // Separated lists
  // ---------------------------------------------------------------------------

  lemma {:induction false} JoinItemsIn<T>(items: seq<T>)
    ensures forall c :: c in Join(items) && c.Item? ==> c.item in items
    decreases |items|
  {
    if |items| > 1 {
      JoinItemsIn(items[1..]);
    }
  }

  lemma ChildrenItemsIn<T>(b: Bracketed<T>)
    ensures forall c :: c in Children(b) && c.Item? ==> c.item in b.items
  {
    JoinItemsIn(b.items);
  }

  /** The tokens of the children of a separated list: an item's tokens or a `,`. */
  function ChildrenTokens<T>(cs: seq<Child<T>>, f: T --> Tokens): Tokens
    requires forall c :: c in cs && c.Item? ==> f.requires(c.item)
    decreases |cs|
  {
    if |cs| == 0 then []
    else (if cs[0].Item? then f(cs[0].item) else [","]) + ChildrenTokens(cs[1..], f)
  }

  lemma {:induction false} ChildrenTokensLast<T>(cs: seq<Child<T>>, f: T --> Tokens)
    requires forall c :: c in cs && c.Item? ==> f.requires(c.item)
    requires |cs| > 0 && cs[|cs| - 1].Item? && |f(cs[|cs| - 1].item)| > 0
    ensures var all := ChildrenTokens(cs, f); var last := f(cs[|cs| - 1].item);
            |all| > 0 && all[|all| - 1] == last[|last| - 1]
    decreases |cs|
  {
    if |cs| > 1 {
      ChildrenTokensLast(cs[1..], f);
      assert cs[1..][|cs[1..]| - 1] == cs[|cs| - 1];
    } else {
      assert ChildrenTokens(cs, f) == f(cs[0].item) + [];
    }
  }

  /** An opening bracket, the children of the list, a closing bracket. */
  function BracketTokens<T>(open: string, b: Bracketed<T>, f: T --> Tokens, close: string): (r: Tokens)
    requires forall x :: x in b.items ==> f.requires(x)
    ensures |r| >= 2 && r[0] == open && r[|r| - 1] == close
  {
    ChildrenItemsIn(b);
    [open] + ChildrenTokens(Children(b), f) + [close]
  }

  // ---------------------------------------------------------------------------
  // Expressions
  // ---------------------------------------------------------------------------

  function CmpText(op: CmpOp): string
  {
    match op
    case Eq => "==" case Ne => "!=" case Lt => "<" case Gt => ">"
    case Le => "<=" case Ge => ">=" case In => "in" case NotIn => "not in"
  }

  function BinText(op: BinOp): string
  {
    match op
    case Add => "+" case Sub => "-" case Mul => "*" case Div => "/"
    case Mod => "%" case FloorDiv => "//" case Pow => "**"
  }

  function UnText(op: UnOp): string
  {
    match op
    case Not => "not" case Neg => "-" case Pos => "+"
  }

  function InfixText(op: Infix): string
  {
    match op
    case CmpInfix(c) => CmpText(c)
    case BinInfix(b) => BinText(b)
  }

  /** `lit_string`: the opening quote, the body, the closing quote. */
  function StrTokens(l: StrLit): Tokens
  {
    [[l.quote], l.body, [l.quote]]
  }

  /** The three tokens of a string spell a whole `lit_string` exactly when the
      quote is a quote character and the body is a body for it. */
  lemma StrTokensSpellLiteral(l: StrLit)
    ensures var toks := StrTokens(l);
            ValidStr(l) <==> StringLiteral(toks[0] + toks[1] + toks[2])
  {
    var s := [l.quote] + l.body + [l.quote];
    assert s[1..|s| - 1] == l.body;
  }

  function ExprTokens(e: Expr): (r: Tokens)
    ensures |r| > 0
    decreases e
  {
    match e
    case Comparison(l, op, r) => ExprTokens(l) + [CmpText(op)] + ExprTokens(r)
    case Binary(l, op, r) => ExprTokens(l) + [BinText(op)] + ExprTokens(r)
    case Unary(op, x) => [UnText(op)] + ExprTokens(x)
    case Call(f, args) => ExprTokens(f) + ArgListTokens(args)
    case ListLit(b) => BracketTokens("[", b, (x: Expr) requires x in b.items => ExprTokens(x), "]")
    case DictLit(b) => DictTokens(b)
    case Str(l) => StrTokens(l)
    case Bool(t) => [if t then "True" else "False"]
    case Int(d) => [d]
    case Float(d) => [d]
    case Ident(n) => [n]
    case Property(o, n) => ExprTokens(o) + [".", n]
    case Subscript(o, i) => ExprTokens(o) + ["["] + ExprTokens(i) + ["]"]
  }

  /** `argument_list` */
  function ArgListTokens(b: Bracketed<Arg>): (r: Tokens)
    ensures |r| >= 2 && r[0] == "(" && r[|r| - 1] == ")"
    decreases b
  {
    BracketTokens("(", b, (a: Arg) requires a in b.items => ArgTokens(a), ")")
  }

  /** An item of `argument_list`; a `kwarg` is `key = value`. */
  function ArgTokens(a: Arg): (r: Tokens)
    ensures |r| > 0
    ensures a.Kwarg? ==> |r| >= 3 && r[0] == a.key && r[1] == "="
    decreases a
  {
    match a
    case Positional(x) => ExprTokens(x)
    case Kwarg(k, v) => [k, "="] + ExprTokens(v)
  }

  /** `dict` */
  function DictTokens(b: Bracketed<Pair>): (r: Tokens)
    ensures |r| >= 2 && r[0] == "{" && r[|r| - 1] == "}"
    decreases b
  {
    BracketTokens("{", b, (p: Pair) requires p in b.items => PairTokens(p), "}")
  }

  /** `pair`: `key : value` */
  function PairTokens(p: Pair): Tokens
    decreases p
  {
    ExprTokens(p.key) + [":"] + ExprTokens(p.value)
  }

  /** The empty argument list and the lone trailing comma are accepted: `()` and `(,)`. */
  lemma EmptyArgListExamples()
    ensures ArgListTokens(Bracketed([], false)) == ["(", ")"]
    ensures ArgListTokens(Bracketed([], true)) == ["(", ",", ")"]
  {
    var comma: seq<Child<Arg>> := [Comma];
    assert ChildrenTokens(comma, ArgTokens) == [","] + ChildrenTokens(comma[1..], ArgTokens);
  }

  /** A list or a dict may hold only a trailing comma: `[,]` and `{,}`. */
  lemma LoneCommaListExample()
    ensures ExprTokens(ListLit(Bracketed([], true))) == ["[", ",", "]"]
    ensures ValidExpr(ListLit(Bracketed([], true)))
  {
    var comma: seq<Child<Expr>> := [Comma];
    assert Children(Bracketed([], true)) == comma;
  }

  lemma LoneCommaDictExample()
    ensures ExprTokens(DictLit(Bracketed([], true))) == ["{", ",", "}"]
    ensures ValidExpr(DictLit(Bracketed([], true)))
  {
    var comma: seq<Child<Pair>> := [Comma];
    assert Children(Bracketed([], true)) == comma;
  }

  /** The tokens of one piece of a flat operator chain. */
  function PieceTokens(p: Piece): Tokens
  {
    match p
    case Operand(a) => ExprTokens(a)
    case Prefix(op) => [UnText(op)]
    case InfixOp(op) => [InfixText(op)]
    case Dot(n) => [".", n]
    case Index(i) => ["["] + ExprTokens(i) + ["]"]
    case Apply(args) => ArgListTokens(args)
  }

  lemma PieceTokensAround(xs: seq<Piece>, p: Piece, ys: seq<Piece>)
    ensures ConcatMap(xs + [p] + ys, PieceTokens)
         == ConcatMap(xs, PieceTokens) + PieceTokens(p) + ConcatMap(ys, PieceTokens)
  {
    ConcatMapAppend(xs + [p], ys, PieceTokens);
    ConcatMapAppend(xs, [p], PieceTokens);
    assert ConcatMap([p], PieceTokens) == PieceTokens(p) + ConcatMap([p][1..], PieceTokens);
  }

  lemma InfixPieceTokens(l: Expr, op: Infix, r: Expr)
    requires ExprTokens(l) == ConcatMap(Flatten(l), PieceTokens)
    requires ExprTokens(r) == ConcatMap(Flatten(r), PieceTokens)
    ensures ExprTokens(Combine(l, op, r)) == ConcatMap(Flatten(Combine(l, op, r)), PieceTokens)
  {
    PieceTokensAround(Flatten(l), InfixOp(op), Flatten(r));
  }

  lemma PostfixPieceTokens(e: Expr)
    requires e.Call? || e.Property? || e.Subscript?
    requires var o := if e.Call? then e.fnName else e.obj;
             ExprTokens(o) == ConcatMap(Flatten(o), PieceTokens)
    ensures ExprTokens(e) == ConcatMap(Flatten(e), PieceTokens)
  {
    var o := if e.Call? then e.fnName else e.obj;
    var p := if e.Call? then Apply(e.args) else if e.Property? then Dot(e.property) else Index(e.index);
    PieceTokensAround(Flatten(o), p, []);
    assert Flatten(e) == Flatten(o) + [p] + [];
  }

  /** The nesting of an expression leaves no trace in its tokens: they are the
      tokens of its flat pieces, which is why the precedences are needed to
      group them again. */
  lemma {:induction false} ExprTokensArePieceTokens(e: Expr)
    ensures ExprTokens(e) == ConcatMap(Flatten(e), PieceTokens)
    decreases e
  {
    if e.Comparison? || e.Binary? {
      ExprTokensArePieceTokens(e.left);
      ExprTokensArePieceTokens(e.right);
      var op := if e.Comparison? then CmpInfix(e.cmp) else BinInfix(e.op);
      InfixPieceTokens(e.left, op, e.right);
      assert Combine(e.left, op, e.right) == e;
    } else if e.Unary? {
      ExprTokensArePieceTokens(e.operand);
      PieceTokensAround([], Prefix(e.unop), Flatten(e.operand));
    } else if e.Call? {
      ExprTokensArePieceTokens(e.fnName);
      PostfixPieceTokens(e);
    } else if e.Property? || e.Subscript? {
      ExprTokensArePieceTokens(e.obj);
      PostfixPieceTokens(e);
    } else {
      PieceTokensAround([], Operand(e), []);
    }
  }

  /** The last token of a valid expression is never `-`: a number always holds a
      digit, an identifier starts with a letter or `_`, and every other alternative
      ends in a closing bracket, a quote or a name. */
  lemma {:induction false} ExprNeverEndsInDash(e: Expr)
    requires ValidExpr(e)
    ensures |ExprTokens(e)| > 0 && ExprTokens(e)[|ExprTokens(e)| - 1] != "-"
    decreases e
  {
    match e
    case Comparison(_, _, r) => ExprNeverEndsInDash(r);
    case Binary(_, _, r) => ExprNeverEndsInDash(r);
    case Unary(_, x) => ExprNeverEndsInDash(x);
    case Call(_, _) =>
    case ListLit(_) =>
    case DictLit(_) =>
    case Str(l) => assert "-"[0] != l.quote;
    case Bool(_) =>
    case Int(d) => IntegerExamples();
    case Float(d) => FloatHasMarker(d);
    case Ident(n) => assert n[0] != '-';
    case Property(_, n) => assert n[0] != '-';
    case Subscript(_, _) =>
  }

  // ---------------------------------------------------------------------------
  // Statements
  // ---------------------------------------------------------------------------

  /** A name of `jinja_from`, then `as` and the alias when there is one. */
  function ImportNameTokens(n: ImportName): (r: Tokens)
    ensures |r| > 0 && r[0] == n.name && (|r| == 3 <==> n.alias.Some?) && (|r| == 1 <==> n.alias.None?)
  {
    [n.name] + (if n.alias.Some? then ["as", n.alias.value] else [])
  }

  function OptionalExprTokens(prefix: Tokens, x: Option<Expr>): Tokens
  {
    if x.Some? then prefix + ExprTokens(x.value) else []
  }

  /** The tokens between the delimiters, led by the keyword that selects the variant. */
  function VariantTokens(v: Variant): (r: Tokens)
    ensures |r| > 0
  {
    match v
    case For(t, i, c) => ["for"] + ExprTokens(t) + ["in"] + ExprTokens(i) + OptionalExprTokens(["if"], c)
    case If(c, elifs, hasElse) =>
      ["if"] + ExprTokens(c)
      + ConcatMap(elifs, (x: Expr) => ["elif"] + ExprTokens(x))
      + (if hasElse then ["else"] else [])
    case Include(t, c, ignoreMissing) =>
      ["include"] + StrTokens(t)
      + (if c.Some? then ["with"] + DictTokens(c.value) else [])
      + (if ignoreMissing then ["ignore missing"] else [])
    case Extends(t) => ["extends"] + StrTokens(t)
    case Block(n) => ["block", n]
    case SetVar(n, x) => ["set", n, "="] + ExprTokens(x)
    case Macro(n, ps) => ["macro", n] + ArgListTokens(ps)
    case CallBlock(m, ps) =>
      ["call"] + OptionalExprTokens([], m) + (if ps.Some? then ArgListTokens(ps.value) else [])
    case Filter(n) => ["filter", n]
    case Raw => ["raw"]
    case Import(m, a) => ["import"] + StrTokens(m) + ["as", a]
    case From(m, names) => ["from"] + StrTokens(m) + ["import"] + ChildrenTokens(Join(names), ImportNameTokens)
    case End(k) => [EndKeyword(k)]
  }

  /** A statement's tokens begin with the keyword that selects its variant. */
  lemma VariantStartsWithHead(v: Variant)
    ensures VariantTokens(v)[0] == HeadKeyword(v)
  {
  }

  /** A trim marker when present. */
  function Dash(present: bool): Tokens
  {
    if present then ["-"] else []
  }

  /** `{%`, an optional `-`, the tokens of the variant, an optional `-`, `%}`. */
  function Frame(trimLeft: bool, middle: Tokens, trimRight: bool): Tokens
  {
    ["{%"] + Dash(trimLeft) + middle + Dash(trimRight) + ["%}"]
  }

  /** `jinja_statement` */
  function StatementTokens(s: Statement): (r: Tokens)
    ensures |r| >= 3 && r[0] == "{%" && r[|r| - 1] == "%}"
    ensures r[1] == "-" <==> s.trimLeft
  {
    Frame(s.trimLeft, VariantTokens(s.variant), s.trimRight)
  }

  /** Takes an optional `-` off the front. */
  function StripLeadingDash(toks: Tokens): (r: (bool, Tokens))
    ensures r.0 <==> |toks| > 0 && toks[0] == "-"
    ensures toks == Dash(r.0) + r.1
  {
    if |toks| > 0 && toks[0] == "-" then (true, toks[1..]) else (false, toks)
  }

  /** Takes an optional `-` off the back. */
  function StripTrailingDash(toks: Tokens): (r: (Tokens, bool))
    ensures r.1 <==> |toks| > 0 && toks[|toks| - 1] == "-"
    ensures toks == r.0 + Dash(r.1)
  {
    if |toks| > 0 && toks[|toks| - 1] == "-" then (toks[..|toks| - 1], true) else (toks, false)
  }

  /** A marker-free run keeps its own first token: the marker is read back exactly. */
  lemma StripLeadingDashOf(present: bool, rest: Tokens)
    requires |rest| > 0 && rest[0] != "-"
    ensures StripLeadingDash(Dash(present) + rest) == (present, rest)
  {
    if present {
      assert (Dash(present) + rest)[1..] == rest;
    } else {
      assert Dash(present) + rest == rest;
    }
  }

  lemma StripTrailingDashOf(rest: Tokens, present: bool)
    requires |rest| > 0 && rest[|rest| - 1] != "-"
    ensures StripTrailingDash(rest + Dash(present)) == (rest, present)
  {
    if present {
      assert (rest + Dash(present))[..|rest|] == rest;
    } else {
      assert rest + Dash(present) == rest;
    }
  }

  lemma UnFrame(toks: Tokens, trimLeft: bool, middle: Tokens, trimRight: bool)
    requires |toks| >= 2 && toks[0] == "{%" && toks[|toks| - 1] == "%}"
    requires toks[1..|toks| - 1] == Dash(trimLeft) + middle + Dash(trimRight)
    ensures Frame(trimLeft, middle, trimRight) == toks
  {
    assert toks == ["{%"] + toks[1..|toks| - 1] + ["%}"];
  }

  /** Recognises the frame of a statement: the two delimiters, a trim marker on
      each side when present, and the non-empty run of tokens between them. */
  function SplitStatement(toks: Tokens): (r: Option<(bool, Tokens, bool)>)
    ensures r.Some? ==> |r.value.1| > 0 && Frame(r.value.0, r.value.1, r.value.2) == toks
  {
    if |toks| >= 2 && toks[0] == "{%" && toks[|toks| - 1] == "%}" then
      var inner := toks[1..|toks| - 1];
      var left := StripLeadingDash(inner);
      var right := StripTrailingDash(left.1);
      if |right.0| > 0 then
        UnFrame(toks, left.0, right.0, right.1);
        Some((left.0, right.0, right.1))
      else None
    else None
  }

  lemma {:induction false} ConcatMapLast<T>(xs: seq<T>, f: T --> Tokens)
    requires |xs| > 0 && forall x :: x in xs ==> f.requires(x)
    requires |f(xs[|xs| - 1])| > 0
    ensures var all := ConcatMap(xs, f); var last := f(xs[|xs| - 1]);
            |all| > 0 && all[|all| - 1] == last[|last| - 1]
    decreases |xs|
  {
    if |xs| > 1 {
      ConcatMapLast(xs[1..], f);
      assert xs[1..][|xs[1..]| - 1] == xs[|xs| - 1];
    } else {
      assert ConcatMap(xs, f) == f(xs[0]) + [];
    }
  }

  /** The identifier of a valid variant is never the single token `-`. */
  lemma IdentifierIsNotDash(n: string)
    requires Identifier(n)
    ensures n != "-"
  {
    assert n[0] != '-';
  }

  lemma IfNeverEndsInDash(c: Expr, elifs: seq<Expr>)
    requires ValidExpr(c) && forall x :: x in elifs ==> ValidExpr(x)
    ensures EndsWithoutDash(VariantTokens(If(c, elifs, false)))
  {
    var f := (x: Expr) => ["elif"] + ExprTokens(x);
    var head := ["if"] + ExprTokens(c);
    var rest := ConcatMap(elifs, f);
    assert VariantTokens(If(c, elifs, false)) == head + rest + [];
    if |elifs| > 0 {
      ExprNeverEndsInDash(elifs[|elifs| - 1]);
      ConcatMapLast(elifs, f);
    } else {
      ExprNeverEndsInDash(c);
      assert rest == [];
    }
  }


  lemma JoinedNamesEnd(names: seq<ImportName>)
    requires |names| > 0
    ensures var all := ChildrenTokens(Join(names), ImportNameTokens);
            var last := ImportNameTokens(names[|names| - 1]);
            |all| > 0 && all[|all| - 1] == last[|last| - 1]
  {
    var cs := Join(names);
    JoinAlternates(names);
    assert |cs| - 1 == 2 * (|names| - 1);
    assert cs[|cs| - 1] == Item(names[|names| - 1]);
    ChildrenTokensLast(cs, ImportNameTokens);
  }

  lemma FromNeverEndsInDash(m: StrLit, names: seq<ImportName>)
    requires |names| > 0 && forall n :: n in names ==> ValidImportName(n)
    ensures EndsWithoutDash(VariantTokens(From(m, names)))
  {
    var last := names[|names| - 1];
    assert last in names;
    JoinedNamesEnd(names);
    if last.alias.Some? {
      IdentifierIsNotDash(last.alias.value);
    } else {
      IdentifierIsNotDash(last.name);
      assert ImportNameTokens(last) == [last.name];
    }
  }

  predicate EndsWithoutDash(toks: Tokens)
  {
    |toks| > 0 && toks[|toks| - 1] != "-"
  }

  lemma ForNeverEndsInDash(t: Expr, i: Expr, c: Option<Expr>)
    requires ValidExpr(i) && (c.Some? ==> ValidExpr(c.value))
    ensures EndsWithoutDash(VariantTokens(For(t, i, c)))
  {
    if c.Some? {
      ExprNeverEndsInDash(c.value);
    } else {
      ExprNeverEndsInDash(i);
      assert VariantTokens(For(t, i, c)) == ["for"] + ExprTokens(t) + ["in"] + ExprTokens(i) + [];
    }
  }

  lemma CallNeverEndsInDash(m: Option<Expr>, ps: Option<Bracketed<Arg>>)
    requires m.Some? ==> ValidExpr(m.value)
    ensures EndsWithoutDash(VariantTokens(CallBlock(m, ps)))
  {
    var toks := VariantTokens(CallBlock(m, ps));
    var callee := OptionalExprTokens([], m);
    var args := if ps.Some? then ArgListTokens(ps.value) else [];
    assert toks == ["call"] + callee + args;
    if ps.None? && m.Some? {
      ExprNeverEndsInDash(m.value);
      assert toks == ["call"] + ExprTokens(m.value);
    }
  }

  /** The last token of a valid variant is never a `-`, so a `-` just before `%}`
      is always the trim marker. */
  lemma VariantNeverEndsInDash(v: Variant)
    requires ValidVariant(v)
    ensures EndsWithoutDash(VariantTokens(v))
  {
    match v
    case For(t, i, c) => ForNeverEndsInDash(t, i, c);
    case If(c, elifs, hasElse) =>
      if !hasElse {
        IfNeverEndsInDash(c, elifs);
      }
    case Include(t, c, ignoreMissing) =>
    case Extends(t) =>
    case Block(n) => IdentifierIsNotDash(n);
    case SetVar(n, x) => ExprNeverEndsInDash(x);
    case Macro(n, ps) =>
    case CallBlock(m, ps) => CallNeverEndsInDash(m, ps);
    case Filter(n) => IdentifierIsNotDash(n);
    case Raw =>
    case Import(m, a) => IdentifierIsNotDash(a);
    case From(m, names) => FromNeverEndsInDash(m, names);
    case End(k) =>
  }

  /** A frame whose middle neither starts nor ends with `-` is read back exactly. */
  lemma FrameRoundTrip(trimLeft: bool, middle: Tokens, trimRight: bool)
    requires |middle| > 0 && middle[0] != "-" && middle[|middle| - 1] != "-"
    ensures SplitStatement(Frame(trimLeft, middle, trimRight)) == Some((trimLeft, middle, trimRight))
  {
    var toks := Frame(trimLeft, middle, trimRight);
    var inner := Dash(trimLeft) + (middle + Dash(trimRight));
    assert toks == ["{%"] + inner + ["%}"];
    assert toks[1..|toks| - 1] == inner;
    StripLeadingDashOf(trimLeft, middle + Dash(trimRight));
    StripTrailingDashOf(middle, trimRight);
  }

  /** The frame of a valid statement is read back exactly: both trim markers and the
      variant's tokens, whose first token selects one of the thirteen alternatives. */
  lemma StatementFrameRoundTrip(s: Statement)
    requires ValidStatement(s)
    ensures SplitStatement(StatementTokens(s)) == Some((s.trimLeft, VariantTokens(s.variant), s.trimRight))
    ensures ParseHead(VariantTokens(s.variant)[0]) == Some(KindOf(s.variant))
  {
    VariantNeverEndsInDash(s.variant);
    HeadDeterminesKind(s.variant);
    VariantStartsWithHead(s.variant);
    assert HeadKeyword(s.variant) != "-";
    FrameRoundTrip(s.trimLeft, VariantTokens(s.variant), s.trimRight);
  }

  /** A bare `call`, an `end*` keyword and both trim markers frame as expected. */
  lemma StatementExamples()
    ensures StatementTokens(Statement(false, CallBlock(None, None), false)) == ["{%", "call", "%}"]
    ensures StatementTokens(Statement(true, End(EndFor), true)) == ["{%", "-", "endfor", "-", "%}"]
    ensures SplitStatement(["{%", "-", "%}"]) == None
  {
  }

  /** The declared conflict between `jinja_call` and `_expr`: `{% call f(x) %}` is
      both a call block with a callee and parameters and a call block whose callee
      is the call `f(x)`. The two trees have the same tokens. */
  lemma CallBlockTokensAgree(f: Expr, args: Bracketed<Arg>)
    ensures CallBlock(Some(f), Some(args)) != CallBlock(Some(Call(f, args)), None)
    ensures VariantTokens(CallBlock(Some(f), Some(args))) == VariantTokens(CallBlock(Some(Call(f, args)), None))
  {
    var callee, params := ExprTokens(f), ArgListTokens(args);
    CallBlockTokens(f, args);
    CalleeOnlyTokens(Call(f, args));
    assert ExprTokens(Call(f, args)) == callee + params;
    assert ["call"] + callee + params == ["call"] + (callee + params);
  }

  lemma CallBlockTokens(f: Expr, ps: Bracketed<Arg>)
    ensures VariantTokens(CallBlock(Some(f), Some(ps))) == ["call"] + ExprTokens(f) + ArgListTokens(ps)
  {
    assert OptionalExprTokens([], Some(f)) == ExprTokens(f);
  }

  lemma CalleeOnlyTokens(g: Expr)
    ensures VariantTokens(CallBlock(Some(g), None)) == ["call"] + ExprTokens(g)
  {
    assert OptionalExprTokens([], Some(g)) == ExprTokens(g);
  }

  /** Both readings of `{% call f(x) %}` are valid whenever `f` and `x` are. */
  lemma CallBlockAmbiguity(f: Expr, args: Bracketed<Arg>)
    requires WellFormedExpr(f) && WellFormedArgs(args)
    ensures ValidVariant(CallBlock(Some(f), Some(args)))
    ensures ValidVariant(CallBlock(Some(Call(f, args)), None))
  {
    var c := Call(f, args);
    assert CallPosts(c);
  }

  /** `{% for a in b in c %}`: the `in` of `jinja_for` and the `in` comparison
      operator are the same token, so the loop target `a in b` over `c` and the
      target `a` over `b in c` spell the same tokens. */
  lemma ForInTokensAgree(a: Expr, b: Expr, c: Expr)
    ensures For(Comparison(a, In, b), c, None) != For(a, Comparison(b, In, c), None)
    ensures VariantTokens(For(Comparison(a, In, b), c, None)) == VariantTokens(For(a, Comparison(b, In, c), None))
  {
    var ta, tb, tc := ExprTokens(a), ExprTokens(b), ExprTokens(c);
    ForTokens(Comparison(a, In, b), c);
    ForTokens(a, Comparison(b, In, c));
    assert ExprTokens(Comparison(a, In, b)) == ta + ["in"] + tb;
    assert ExprTokens(Comparison(b, In, c)) == tb + ["in"] + tc;
    assert ["for"] + (ta + ["in"] + tb) + ["in"] + tc + [] == ["for"] + ta + ["in"] + (tb + ["in"] + tc) + [];
  }

  lemma ForTokens(t: Expr, i: Expr)
    ensures VariantTokens(For(t, i, None)) == ["for"] + ExprTokens(t) + ["in"] + ExprTokens(i) + []
  {
  }

  /** Both readings of `{% for a in b in c %}` are valid whenever the three
      operands are well formed and `b` and `c` are operands of a level-1 operator. */
  lemma ForInAmbiguity(a: Expr, b: Expr, c: Expr)
    requires WellFormedExpr(a) && WellFormedExpr(b) && WellFormedExpr(c)
    requires UnitLevel(b) && UnitLevel(c)
    ensures ValidVariant(For(Comparison(a, In, b), c, None))
    ensures ValidVariant(For(a, Comparison(b, In, c), None))
  {
  }

  // ---------------------------------------------------------------------------
  // Markup and the template
  // ---------------------------------------------------------------------------

  /** `{{`, the expression, `}}` */
  function ValueTokens(e: Expr): (r: Tokens)
    ensures |r| >= 3 && r[0] == "{{" && r[|r| - 1] == "}}"
  {
    ["{{"] + ExprTokens(e) + ["}}"]
  }

  /** `html_attribute`: the name, then `=` and a quoted string or a value when present. */
  function AttributeTokens(a: Attribute): (r: Tokens)
    ensures |r| > 0 && r[0] == a.name
    ensures |r| == 1 <==> a.value.None?
  {
    [a.name] +
    (match a.value
     case None => []
     case Some(Quoted(l)) => ["="] + StrTokens(l)
     case Some(Interpolated(e)) => ["="] + ValueTokens(e))
  }

  /** Every item but free text is delimited: it opens with `{{`, `{%`, `{#` or `<`
      and closes with `}}`, `%}`, `#}`, `/>` or `>`. */
  function NodeTokens(n: Node): (r: Tokens)
    ensures |r| > 0
    ensures !n.Text? ==> r[0] in {"{{", "{%", "{#", "<"} && r[|r| - 1] in {"}}", "%}", "#}", "/>", ">"}
    decreases n
  {
    match n
    case Value(e) => ValueTokens(e)
    case Stmt(s) => StatementTokens(s)
    case Comment(t) => ["{#", t, "#}"]
    case Element(tag, attrs, ending) =>
      ["<", tag] + ConcatMap(attrs, AttributeTokens)
      + (match ending
         case SelfClosing => ["/>"]
         case WithBody(children, close) =>
           [">"] + ConcatMap(children, (c: Node) requires c in children => NodeTokens(c))
           + ["</", close, ">"])
    case Text(t) => [t]
  }

  /** `source_file`: the tokens of its items, one after the other. */
  function TemplateTokens(items: seq<Node>): (r: Tokens)
    ensures r == [] <==> items == []
  {
    ConcatMap(items, NodeTokens)
  }

  /** The items of a template are unparsed independently: splitting a template
      anywhere splits its tokens there. */
  lemma TemplateTokensAppend(xs: seq<Node>, ys: seq<Node>)
    ensures TemplateTokens(xs + ys) == TemplateTokens(xs) + TemplateTokens(ys)
  {
    ConcatMapAppend(xs, ys, NodeTokens);
  }

  /** An element opens with `<` and its tag name and ends either with `/>` and no
      body, or with `</`, the closing name and `>`. */
  lemma ElementFrame(tag: string, attrs: seq<Attribute>, ending: Ending)
    ensures var toks := NodeTokens(Element(tag, attrs, ending));
            && |toks| >= 3 && toks[..2] == ["<", tag]
            && (ending.SelfClosing? <==> toks[|toks| - 1] == "/>")
            && (ending.WithBody? ==> toks[|toks| - 3..] == ["</", ending.closeTag, ">"])
  {
  }

  /** An attribute value is a quoted string or a `{{ ... }}` value: the token after
      `=` is a quote or `{{`. */
  lemma AttributeValueForms(a: Attribute)
    requires ValidAttribute(a) && a.value.Some?
    ensures var toks := AttributeTokens(a);
            |toks| >= 3 && toks[1] == "=" && toks[2] in {"'", "\"", "{{"}
  {
  }

  /** The closing name of an element is not checked against the opening one:
      `<a>text</b>` is a valid element. */
  lemma MismatchedCloseTagAccepted()
    ensures ValidNode(Element("a", [], WithBody([Text("text")], "b")))
  {
    ContentShape("text");
    assert ValidNode(Text("text"));
    assert HtmlName("a") && HtmlName("b");
  }

  lemma MismatchedCloseTagTokens()
    ensures NodeTokens(Element("a", [], WithBody([Text("text")], "b")))
         == ["<", "a", ">", "text", "</", "b", ">"]
  {
    var children := [Text("text")];
    assert ConcatMap(children, (c: Node) requires c in children => NodeTokens(c)) == ["text"];
  }
}
