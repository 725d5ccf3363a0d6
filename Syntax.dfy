/** The concrete syntax tree of a Jinja2 template mixed with HTML markup: one
    datatype per node kind, with the named fields of the rule table, and the
    predicates saying when a tree is one the grammar derives: the lexemes
    stored in it are tokens of their kind, and its expressions are nested as
    the precedence annotations require. */
module Syntax {
  import opened Wrappers
  import opened Lexical
  import opened Separated

  // ---------------------------------------------------------------------------
  // Expressions
  // ---------------------------------------------------------------------------

  /** The `operator` field of `comparison` */
  datatype CmpOp = Eq | Ne | Lt | Gt | Le | Ge | In | NotIn

  /** The `operator` field of `binary_operation` */
  datatype BinOp = Add | Sub | Mul | Div | Mod | FloorDiv | Pow

  /** The `operator` field of `unary_operation` */
  datatype UnOp = Not | Neg | Pos

  /** `lit_string`: the quote character and the text between the quotes. */
  datatype StrLit = StrLit(quote: char, body: string)

  /** `_expr` and its thirteen alternatives. */
  datatype Expr =
    | Comparison(left: Expr, cmp: CmpOp, right: Expr)
    | Binary(left: Expr, op: BinOp, right: Expr)
    | Unary(unop: UnOp, operand: Expr)
    | Call(fnName: Expr, args: Bracketed<Arg>)
    | ListLit(elems: Bracketed<Expr>)
    | DictLit(pairs: Bracketed<Pair>)
    | Str(lit: StrLit)
    | Bool(truth: bool)
    | Int(digits: string)
    | Float(numeral: string)
    | Ident(name: string)
    | Property(obj: Expr, property: string)
    | Subscript(obj: Expr, index: Expr)

  /** An item of `argument_list`: an expression or a `kwarg`. */
  datatype Arg = Positional(expr: Expr) | Kwarg(key: string, value: Expr)

  /** `pair`, an item of `dict` */
  datatype Pair = Pair(key: Expr, value: Expr)

  /** The alternatives of `_expr` that have no operand on their left or right:
      literals, identifiers, lists and dicts. */
  predicate Primary(e: Expr)
  {
    e.ListLit? || e.DictLit? || e.Str? || e.Bool? || e.Int? || e.Float? || e.Ident?
  }

  predicate ValidStr(l: StrLit) { IsQuote(l.quote) && StringBody(l.quote, l.body) }

  /** Every lexeme in the expression is a token of its kind. */
  predicate ValidExpr(e: Expr)
    decreases e, 1
  {
    match e
    case Comparison(l, _, r) => ValidExpr(l) && ValidExpr(r)
    case Binary(l, _, r) => ValidExpr(l) && ValidExpr(r)
    case Unary(_, x) => ValidExpr(x)
    case Call(f, args) => ValidExpr(f) && ValidArgs(args)
    case ListLit(b) => forall x :: x in b.items ==> ValidExpr(x)
    case DictLit(b) => ValidPairs(b)
    case Str(l) => ValidStr(l)
    case Bool(_) => true
    case Int(t) => IntegerLit(t)
    case Float(t) => FloatLit(t)
    case Ident(n) => Identifier(n)
    case Property(o, n) => ValidExpr(o) && Identifier(n)
    case Subscript(o, i) => ValidExpr(o) && ValidExpr(i)
  }

  predicate ValidArgs(b: Bracketed<Arg>)
    decreases b, 0
  {
    forall a :: a in b.items ==>
      match a
      case Positional(x) => ValidExpr(x)
      case Kwarg(k, v) => Identifier(k) && ValidExpr(v)
  }

  predicate ValidPairs(b: Bracketed<Pair>)
    decreases b, 0
  {
    forall p :: p in b.items ==> ValidExpr(p.key) && ValidExpr(p.value)
  }

  // ---------------------------------------------------------------------------
  // The trees the precedences allow
  // ---------------------------------------------------------------------------

  /** A primary followed by precedence-2 postfixes. */
  predicate AtomPosts(e: Expr)
    decreases e
  {
    Primary(e) || ((e.Property? || e.Subscript?) && AtomPosts(e.obj))
  }

  /** An operand of a level-1 operator: prefixes over a primary with its postfixes. */
  predicate UnitLevel(e: Expr)
    decreases e
  {
    AtomPosts(e) || (e.Unary? && UnitLevel(e.operand))
  }

  /** A call of a whole level-1 expression, followed by precedence-2 postfixes. */
  predicate CallPosts(e: Expr)
    decreases e, 0
  {
    (e.Call? && Resolved(e.fnName)) || ((e.Property? || e.Subscript?) && CallPosts(e.obj))
  }

  /** A tree nested as the precedence annotations require. */
  predicate Resolved(e: Expr)
    decreases e, 1
  {
    || UnitLevel(e)
    || CallPosts(e)
    || ((e.Comparison? || e.Binary?) && Resolved(e.left) && UnitLevel(e.right))
  }

  /** Every expression position of the tree is nested as the precedence
      annotations require: the whole tree, and inside brackets every index,
      argument, list item and dict key and value. */
  predicate WellNested(e: Expr)
    decreases e, 1
  {
    Resolved(e) && BracketsNested(e)
  }

  /** The bracketed sub-expressions of `e`, at any depth outside brackets, are well nested. */
  predicate BracketsNested(e: Expr)
    decreases e, 0
  {
    match e
    case Comparison(l, _, r) => BracketsNested(l) && BracketsNested(r)
    case Binary(l, _, r) => BracketsNested(l) && BracketsNested(r)
    case Unary(_, x) => BracketsNested(x)
    case Call(f, args) => BracketsNested(f) && ArgsNested(args)
    case ListLit(b) => forall x :: x in b.items ==> WellNested(x)
    case DictLit(b) => PairsNested(b)
    case Property(o, _) => BracketsNested(o)
    case Subscript(o, i) => BracketsNested(o) && WellNested(i)
    case _ => true
  }

  predicate ArgsNested(b: Bracketed<Arg>)
    decreases b, 0
  {
    forall a :: a in b.items ==>
      match a
      case Positional(x) => WellNested(x)
      case Kwarg(_, v) => WellNested(v)
  }

  predicate PairsNested(b: Bracketed<Pair>)
    decreases b, 0
  {
    forall p :: p in b.items ==> WellNested(p.key) && WellNested(p.value)
  }

  /** An expression as the grammar derives it: valid lexemes, allowed nesting. */
  predicate WellFormedExpr(e: Expr) { ValidExpr(e) && WellNested(e) }

  predicate WellFormedArgs(b: Bracketed<Arg>) { ValidArgs(b) && ArgsNested(b) }

  predicate WellFormedPairs(b: Bracketed<Pair>) { ValidPairs(b) && PairsNested(b) }

  /** The lexemes alone do not make an expression: `a + (b * c)` with no
      brackets in the text is a tree the level-1 left associativity rules out. */
  lemma RightNestedSumRejected()
    ensures ValidExpr(Binary(Ident("a"), Add, Binary(Ident("b"), Mul, Ident("c"))))
    ensures !WellNested(Binary(Ident("a"), Add, Binary(Ident("b"), Mul, Ident("c"))))
  {
    var r := Binary(Ident("b"), Mul, Ident("c"));
    assert !UnitLevel(r) && !CallPosts(r);
    assert "a"[1..] == [] && "b"[1..] == [] && "c"[1..] == [];
  }

  /** Inside brackets the same tree is ruled out too: a list holding it is not
      well nested. */
  lemma RightNestedItemRejected()
    ensures var t := Binary(Ident("a"), Add, Binary(Ident("b"), Mul, Ident("c")));
      ValidExpr(ListLit(Bracketed([t], false))) && !WellNested(ListLit(Bracketed([t], false)))
  {
    var t := Binary(Ident("a"), Add, Binary(Ident("b"), Mul, Ident("c")));
    RightNestedSumRejected();
    assert t in Bracketed([t], false).items;
  }

  // ---------------------------------------------------------------------------
  // Statements
  // ---------------------------------------------------------------------------

  /** The six keywords of `jinja_end_statement` */
  datatype EndKind = EndMacro | EndFor | EndIf | EndBlock | EndRaw | EndCall

  /** A name of `jinja_from`, with its optional `as` alias. */
  datatype ImportName = ImportName(name: string, alias: Option<string>)

  /** The thirteen alternatives between the delimiters of `jinja_statement`. */
  datatype Variant =
    | For(target: Expr, iterable: Expr, ifClause: Option<Expr>)
    | If(condition: Expr, elifs: seq<Expr>, hasElse: bool)
    | Include(template: StrLit, context: Option<Bracketed<Pair>>, ignoreMissing: bool)
    | Extends(parentTemplate: StrLit)
    | Block(blockName: string)
    | SetVar(variable: string, value: Expr)
    | Macro(macroName: string, params: Bracketed<Arg>)
    | CallBlock(macro: Option<Expr>, callParams: Option<Bracketed<Arg>>)
    | Filter(filterName: string)
    | Raw
    | Import(source: StrLit, alias: string)
    | From(fromSource: StrLit, names: seq<ImportName>)
    | End(kind: EndKind)

  /** `jinja_statement`: the variant and the optional `-` trim marker on each side. */
  datatype Statement = Statement(trimLeft: bool, variant: Variant, trimRight: bool)

  predicate ValidImportName(n: ImportName)
  {
    Identifier(n.name) && (n.alias.Some? ==> Identifier(n.alias.value))
  }

  predicate ValidVariant(v: Variant)
  {
    match v
    case For(t, i, c) => WellFormedExpr(t) && WellFormedExpr(i) && (c.Some? ==> WellFormedExpr(c.value))
    case If(c, elifs, _) => WellFormedExpr(c) && forall x :: x in elifs ==> WellFormedExpr(x)
    case Include(t, c, _) => ValidStr(t) && (c.Some? ==> WellFormedPairs(c.value))
    case Extends(t) => ValidStr(t)
    case Block(n) => Identifier(n)
    case SetVar(n, x) => Identifier(n) && WellFormedExpr(x)
    case Macro(n, ps) => Identifier(n) && WellFormedArgs(ps)
    case CallBlock(m, ps) => (m.Some? ==> WellFormedExpr(m.value)) && (ps.Some? ==> WellFormedArgs(ps.value))
    case Filter(n) => Identifier(n)
    case Raw => true
    case Import(s, a) => ValidStr(s) && Identifier(a)
    case From(s, names) => ValidStr(s) && |names| > 0 && forall n :: n in names ==> ValidImportName(n)
    case End(_) => true
  }

  predicate ValidStatement(s: Statement) { ValidVariant(s.variant) }

  /** The statement kinds, one per alternative of the `jinja_statement` choice. */
  datatype Kind = KFor | KIf | KInclude | KExtends | KBlock | KSet | KMacro | KCall | KFilter | KRaw | KImport | KFrom | KEnd

  function KindOf(v: Variant): Kind
  {
    match v
    case For(_, _, _) => KFor
    case If(_, _, _) => KIf
    case Include(_, _, _) => KInclude
    case Extends(_) => KExtends
    case Block(_) => KBlock
    case SetVar(_, _) => KSet
    case Macro(_, _) => KMacro
    case CallBlock(_, _) => KCall
    case Filter(_) => KFilter
    case Raw => KRaw
    case Import(_, _) => KImport
    case From(_, _) => KFrom
    case End(_) => KEnd
  }

  function EndKeyword(k: EndKind): string
  {
    match k
    case EndMacro => "endmacro"
    case EndFor => "endfor"
    case EndIf => "endif"
    case EndBlock => "endblock"
    case EndRaw => "endraw"
    case EndCall => "endcall"
  }

  /** Reads an end keyword: exactly the six keywords are accepted. */
  function ParseEndKeyword(s: string): (r: Option<EndKind>)
    ensures r.Some? <==> s in {"endmacro", "endfor", "endif", "endblock", "endraw", "endcall"}
    ensures r.Some? ==> EndKeyword(r.value) == s
  {
    if s == "endmacro" then Some(EndMacro)
    else if s == "endfor" then Some(EndFor)
    else if s == "endif" then Some(EndIf)
    else if s == "endblock" then Some(EndBlock)
    else if s == "endraw" then Some(EndRaw)
    else if s == "endcall" then Some(EndCall)
    else None
  }

  /** The keyword that opens a variant, right after `{%` and the optional trim marker. */
  function HeadKeyword(v: Variant): string
  {
    match v
    case For(_, _, _) => "for"
    case If(_, _, _) => "if"
    case Include(_, _, _) => "include"
    case Extends(_) => "extends"
    case Block(_) => "block"
    case SetVar(_, _) => "set"
    case Macro(_, _) => "macro"
    case CallBlock(_, _) => "call"
    case Filter(_) => "filter"
    case Raw => "raw"
    case Import(_, _) => "import"
    case From(_, _) => "from"
    case End(k) => EndKeyword(k)
  }

  /** Reads a statement head: which of the thirteen alternatives a keyword opens. */
  function ParseHead(s: string): (r: Option<Kind>)
    ensures r == Some(KEnd) <==> ParseEndKeyword(s).Some?
  {
    if s == "for" then Some(KFor)
    else if s == "if" then Some(KIf)
    else if s == "include" then Some(KInclude)
    else if s == "extends" then Some(KExtends)
    else if s == "block" then Some(KBlock)
    else if s == "set" then Some(KSet)
    else if s == "macro" then Some(KMacro)
    else if s == "call" then Some(KCall)
    else if s == "filter" then Some(KFilter)
    else if s == "raw" then Some(KRaw)
    else if s == "import" then Some(KImport)
    else if s == "from" then Some(KFrom)
    else if ParseEndKeyword(s).Some? then Some(KEnd)
    else None
  }

  /** The head keyword determines the alternative: exactly one of the thirteen applies. */
  lemma HeadDeterminesKind(v: Variant)
    ensures ParseHead(HeadKeyword(v)) == Some(KindOf(v))
    ensures v.End? ==> ParseEndKeyword(HeadKeyword(v)) == Some(v.kind)
  {
    if v.End? {
      match v.kind
      case EndMacro =>
      case EndFor =>
      case EndIf =>
      case EndBlock =>
      case EndRaw =>
      case EndCall =>
    }
  }

  /** Statement keywords are not reserved by the rule table: `call` is also an
      identifier, so `{{ call }}` holds an identifier expression. */
  lemma CallIsIdentifier()
    ensures ValidExpr(Ident("call")) && HeadKeyword(CallBlock(None, None)) == "call"
  {
    var s := "call";
    assert s[1..] == "all" && "all"[1..] == "ll" && "ll"[1..] == "l" && "l"[1..] == [];
  }

  // ---------------------------------------------------------------------------
  // Markup and the template
  // ---------------------------------------------------------------------------

  /** The items of `source_file` and of an element's body. */
  datatype Node =
    | Value(expr: Expr)
    | Stmt(stmt: Statement)
    | Comment(text: string)
    | Element(tag: string, attrs: seq<Attribute>, ending: Ending)
    | Text(text: string)

  /** `html_content` ends either with `/>` or with a body and a closing tag whose
      name is its own field. */
  datatype Ending = SelfClosing | WithBody(children: seq<Node>, closeTag: string)

  /** `html_attribute`: a name and an optional value. */
  datatype Attribute = Attribute(name: string, value: Option<AttrValue>)

  /** An attribute value is a quoted string or a `{{ ... }}` value, nothing else. */
  datatype AttrValue = Quoted(lit: StrLit) | Interpolated(expr: Expr)

  predicate ValidAttribute(a: Attribute)
  {
    && HtmlName(a.name)
    && (a.value.Some? ==>
          match a.value.value
          case Quoted(l) => ValidStr(l)
          case Interpolated(e) => WellFormedExpr(e))
  }

  predicate ValidNode(n: Node)
    decreases n
  {
    match n
    case Value(e) => WellFormedExpr(e)
    case Stmt(s) => ValidStatement(s)
    case Comment(t) => CommentContent(t)
    case Element(tag, attrs, ending) =>
      && HtmlName(tag)
      && (forall a :: a in attrs ==> ValidAttribute(a))
      && (match ending
          case SelfClosing => true
          case WithBody(children, close) =>
            HtmlName(close) && forall c :: c in children ==> ValidNode(c))
    case Text(t) => Content(t)
  }

  /** `source_file`: zero or more items. */
  predicate ValidTemplate(items: seq<Node>)
  {
    forall n :: n in items ==> ValidNode(n)
  }
}
