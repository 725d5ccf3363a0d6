# A Dafny model of the tree-sitter Jinja2 grammar

`grammar.js` is a declarative tree-sitter rule table. It covers Jinja2 templates mixed with HTML-like markup: `{{ value }}`, `{% statement %}`, `{# comment #}`, `<tag attr=...> ... </tag>` and free text. This project states the language that table fixes as pure Dafny definitions and proves what each rule guarantees. It has three parts:

- **Lexical token languages** (`Lexical.dfy`). Each token regex (free-text `content`, comment content, identifiers, tag and attribute names, quoted-string bodies, integers, floats) is a recursive matcher whose alternatives follow the regex. For content, comment content, identifiers, tag and attribute names, string bodies and integers, a shape lemma states the matcher's language exactly, with quantifiers over the characters of the lexeme. For comment content the condition also counts the run of `#` before each `}` with a small recursive function. Floats get one-way facts instead: each one carries a `.` or an exponent marker, only the point forms take a sign, and no lexeme is both an integer and a float.
- **The concrete syntax tree and its tokens.**
  - `Separated.dfy` models `commaSep1`/`sep1` and the bracketed lists built from them (`argument_list`, `list`, `dict`). It gives a recogniser and proves the round trip.
  - `Syntax.dfy` defines one datatype per node kind, with the rule table's fields. It covers the thirteen statement variants, the six end keywords, `html_content` and `html_attribute`. Its validity predicates say that every stored lexeme is a token of its kind and that every expression position, inside brackets too, is nested as the precedence annotations allow.
  - `Unparse.dfy` flattens every node to its token sequence. It proves the statement frame (`{%`, optional `-`, variant, optional `-`, `%}`), the element frame and the shape of attribute values.
- **Operator grouping** (`Grouping.dfy`). The `prec.left`/`prec.right` annotations decide how a flat run of operands and operators nests. Here that nesting is a deterministic function, `Group`, from a flat sequence of pieces to a tree. It is proved to be the inverse of flattening on exactly the trees the annotations allow, so the grouping is unique. It is also total: the pieces of every expression tree group, into the allowed tree with the same pieces (`Grouping.Norm`). The file also proves the associativity each annotation sets.

The grouping follows tree-sitter's resolution rules:
- `comparison`, `binary_operation` and `fn_call` are all `prec.left(1)`. A chain of them groups to the left whatever the operators, so `a + b * c` is `(a + b) * c` and `a + f(x)` is `(a + f)(x)`.
- `unary_operation` is `prec.right(2)`, so `-a + b` is `(-a) + b`.
- `property_access` and `subscript` are `prec.left(2)`. Inside a prefix they stay under it, so `-a.b` is `-(a.b)`.

Some behaviour of `grammar.js` is easy to misread; the model states it as written:
- **Integers may start with `_`.** `integer` is `optional(/[\+-]/)` followed by `repeat1(/_?[0-9]+/)`, so `_1` and `-_1` are integers (grammar.js:248). `Lexical.IntegerExamples` proves that `_1` and `+_7` are accepted.
- **`elif` and `else` belong to the `if` statement.** They are fields of `jinja_if` (grammar.js:66-76), not statements of their own. `Syntax.Variant.If` holds the `elif` conditions and an `else` flag.
- **There is no raw lexer mode.** `jinja_raw` is just the keyword `raw` (grammar.js:113). The body of a raw block is parsed like any other template text.
- **No keyword is reserved.** The grammar has no `word` rule or reserved list, so `call` and every other statement keyword is also a valid `identifier` (`Syntax.CallIsIdentifier`). The statement head is read from the first token of the variant (`Syntax.ParseHead`).

## Model

| member | source | states |
|---|---|---|
| Lexical.AllOfShape | grammar.js:175 | a character-class walk accepts exactly the strings whose every character is in the class |
| Lexical.Content | grammar.js:245-246 | `content` is one or more chunks, each a character other than `<` and `{`, or a `{` followed by a character other than `{`, `%` and `#` |
| Lexical.ContentChunksShape | grammar.js:246 | a run of `[^<{]` and `[{][^{%#]` chunks is exactly a string where every `{` is followed by a character other than `{`, `%`, `#`, and every `<` directly follows a `{` |
| Lexical.ContentShape | grammar.js:245-246 | `content` is exactly a non-empty string with both properties above |
| Lexical.ContentNeverOpensDelimiter | grammar.js:246 | in a `content` token, each `{` is followed by a character that is not `{`, `%` or `#` (so no `{{`, `{%`, `{#`); a `<` only directly follows a `{`; the token never ends in `{` |
| Lexical.ContentExamples | grammar.js:246 | `a { b` and `{<` are content; `a {{ b`, `a <b` and `x{` are not |
| Lexical.CommentContent | grammar.js:147 | comment content is zero or more chunks, each a character other than `#`, or a `#` followed by a character other than `}` |
| Lexical.CommentContentShape | grammar.js:147 | comment content is exactly the text in which every `}`, and the end of the text, comes after an even number of consecutive `#` |
| Lexical.CommentContentAppend | grammar.js:147 | after a complete comment-content prefix, the rest is comment content if and only if the suffix is |
| Lexical.CommentStopsAtClose | grammar.js:147-148 | comment content never contains a `#}` that starts at a chunk boundary, so the close delimiter ends it |
| Lexical.CommentExamples | grammar.js:139-148 | the empty string and `##}` are comment content (so `{##}` is a whole comment); ` a #}` is not |
| Lexical.Identifier | grammar.js:239-241 | an identifier is a character of `[a-zA-Z_]` followed by characters of `[a-zA-Z0-9_]` |
| Lexical.HtmlName | grammar.js:175-183 | a tag or attribute name is a character of `[a-zA-Z]` followed by characters of `[a-zA-Z0-9-]` |
| Lexical.IdentifierShape | grammar.js:239-241 | an identifier is exactly a non-empty string starting with a letter or `_`, continuing with letters, digits or `_` |
| Lexical.HtmlNameShape | grammar.js:175-183 | a tag or attribute name is exactly a non-empty string starting with a letter, continuing with letters, digits or `-` |
| Lexical.HtmlNameVersusIdentifier | grammar.js:175-241 | a tag name without `-` is an identifier; an identifier that starts with a letter and has no `_` is a tag name |
| Lexical.StringBody | grammar.js:229 | a string body is zero or more chunks, each a character other than the quote, or a backslash followed by the quote |
| Lexical.StringBodyShape | grammar.js:229 | for either quote, a string body contains its own quote only directly after a backslash, and every such string is a body |
| Lexical.StringLiteral | grammar.js:228-229 | a string literal is a `'` or `"`, a body for that quote, and the same quote again |
| Lexical.IntegerLit | grammar.js:248 | an integer is an optional sign followed by one or more groups, each an optional `_` and one or more digits |
| Lexical.IntGroupsShape | grammar.js:248 | `repeat1(/_?[0-9]+/)` is exactly a non-empty run of digits and `_` with no `__` that ends in a digit |
| Lexical.IntegerShape | grammar.js:248 | an integer is exactly an optional sign followed by such a run: it holds a digit, never holds `__` and never ends in `_` |
| Lexical.IntegerExamples | grammar.js:248 | `_1`, `-1_000` and `+_7` are integers; `1__0`, `1_` and `-` are not |
| Lexical.FloatLit | grammar.js:250-273 | a float is a signed or unsigned point form (digits, `.`, optional digits, or optional digits, `.`, digits; either with an optional exponent), or unsigned digits followed by an exponent; `digits` is one or more runs of digits each followed by an optional `_` |
| Lexical.PointFormHasPoint | grammar.js:256-270 | both point forms of `float` contain a `.` |
| Lexical.FloatHasMarker | grammar.js:250-273 | every float contains a `.`, an `e` or an `E` |
| Lexical.FloatWithoutPointIsUnsigned | grammar.js:271 | a float without `.` is the exponent-only form and starts with a digit, so it takes no sign |
| Lexical.IntegerHasNoMarker | grammar.js:248 | an integer contains no `.`, `e` or `E` |
| Lexical.IntegerIsNotFloat | grammar.js:248-273 | no lexeme is both an integer and a float |
| Lexical.FloatPointLast | grammar.js:257-263 | `1.` is a float (digits then a point, nothing after) |
| Lexical.FloatPointFirst | grammar.js:264-270 | `.5` is a float (no digits before the point) |
| Lexical.FloatSignedWithExponent | grammar.js:257-263 | `-2.5e+3` is a float: a sign, a point and a signed exponent |
| Lexical.FloatExponentOnly | grammar.js:271 | `1e5` is a float; `+1e5` (a signed exponent-only form) and `12` are not |
| Separated.Join | grammar.js:314-316 | `sep1` gives 2n-1 children for n items, and none for none |
| Separated.JoinAlternates | grammar.js:314-316 | `sep1` children alternate: the items in order at the even positions, a `,` at every odd position |
| Separated.SplitSep1 | grammar.js:310-316 | the recogniser of `sep1(rule, ",")` returns one or more items whose comma-joined children are exactly its input |
| Separated.SplitSep1Join | grammar.js:314-316 | every non-empty item list joined with commas is recognised as itself |
| Separated.Children | grammar.js:220-235 | the children between brackets are empty exactly when there are no items and no trailing comma, and end in `,` exactly when the trailing comma is present |
| Separated.ParseBracketed | grammar.js:220-235 | the recogniser of an optional `commaSep1` list followed by an optional `,` returns a list whose children are exactly its input |
| Separated.ParseBracketedChildren | grammar.js:220-235 | every item list with or without a trailing comma is recognised as itself, so the children determine both |
| Separated.BracketedExamples | grammar.js:220-235 | no children and a lone `,` are accepted, as are a lone item and an item then `,`; `item , ,` and `, item` are rejected |
| Syntax.ValidExpr | grammar.js:185-248 | every lexeme stored in an expression (identifiers, property names, keyword-argument names, integers, floats, string bodies) is a token of its kind, at every depth |
| Syntax.Resolved | grammar.js:202-306 | a tree is nested as the precedences require: a left-grouped chain of level-1 operators whose right operands are prefixes over a primary with `.`/`[...]` postfixes, with calls taking the whole level-1 expression on their left |
| Syntax.WellNested | grammar.js:185-306 | every expression position is nested as the precedences require: the whole tree and, inside brackets, every index, argument, list item and dict key and value |
| Syntax.RightNestedSumRejected | grammar.js:276-297 | the tree `a + (b * c)`, written without brackets, has valid lexemes but is not well nested: left associativity rules it out |
| Syntax.RightNestedItemRejected | grammar.js:233 | a list holding that tree is not well nested either: brackets do not lift the nesting rule |
| Syntax.ValidVariant | grammar.js:57-137 | each statement variant holds well-formed expressions, valid string literals and identifiers in its fields, and `from` imports at least one name |
| Syntax.ValidStatement | grammar.js:31-55 | a statement is valid when its variant is; the trim markers are free |
| Syntax.ValidNode | grammar.js:10-183 | a template item is valid when its value expression is well formed, its statement valid, its comment text comment content, its free text `content`, and an element's tag, attributes, closing name and children are valid |
| Syntax.ValidAttribute | grammar.js:177-183 | an attribute has a valid name, and its value, if any, is a valid quoted string or a well-formed `{{ }}` expression |
| Syntax.ValidTemplate | grammar.js:10-19 | a template is valid when each of its items is |
| Syntax.ParseEndKeyword | grammar.js:136-137 | exactly the six keywords `endmacro`, `endfor`, `endif`, `endblock`, `endraw`, `endcall` are end statements, each read back to its kind |
| Syntax.ParseHead | grammar.js:35-49 | a head keyword selects the end-statement alternative exactly when it is one of the six end keywords |
| Syntax.HeadDeterminesKind | grammar.js:35-137 | the first keyword of each of the thirteen variants selects that variant and no other |
| Syntax.CallIsIdentifier | grammar.js:101-109 | `call` heads the call statement (with callee and arguments both absent) and is also a valid identifier expression |
| Grouping.Flatten | grammar.js:185-306 | an expression read left to right as prefixes, operands, infix operators and `.name`/`[index]`/`(args)` postfixes, with bracketed sub-expressions kept whole inside their piece |
| Grouping.FlattenStarts | grammar.js:185-306 | an expression's flat run of pieces is non-empty and starts with an operand or a prefix operator |
| Grouping.FlattenEnds | grammar.js:185-306 | an expression's flat run of pieces ends with an operand or a postfix, never with an infix or prefix operator |
| Grouping.ParsePosts | grammar.js:202-212 | postfix `.name` and `[index]` nest to the left onto the expression so far, keep the pieces in order, and stop at the first non-postfix piece |
| Grouping.ParseUnit | grammar.js:299-306 | an operand of a level-1 operator is prefixes nested to the right around a primary and its postfixes; the pieces are kept in order |
| Grouping.ParseChain | grammar.js:214-297 | infix operators and argument lists fold onto everything to their left; the pieces are kept in order and a resolved tree stays resolved |
| Grouping.Group | grammar.js:185-306 | a grouped tree flattens back to exactly the input pieces and is nested as the precedences require |
| Grouping.GroupFlatten | grammar.js:202-306 | every tree nested as the precedences require is what `Group` builds from its pieces |
| Grouping.GroupingUnique | grammar.js:202-306 | two such trees with the same pieces are equal: the grouping is unambiguous |
| Grouping.PostOf | grammar.js:202-212 | the `.name` or `[index]` piece of a property access or subscript puts it back on its object |
| Grouping.PostInto | grammar.js:202-212 | a postfix after a resolved tree applies to its rightmost operand, inside that operand's prefixes; the result is resolved, keeps the pieces in order and stays a level-1 operand if the input was one |
| Grouping.PrefixInto | grammar.js:299-306 | a prefix before a resolved tree applies to its leftmost operand, beneath level-1 operators and calls; the result is resolved, keeps the pieces in order and stays a call if the input was one |
| Grouping.AppendInfix | grammar.js:276-297 | an infix operator between two resolved trees takes the whole left tree and goes beneath the right tree's level-1 operators and calls; the result is resolved and keeps the pieces in order |
| Grouping.Norm | grammar.js:185-306 | every expression tree has a resolved tree with exactly the same pieces |
| Grouping.GroupTotal | grammar.js:185-306 | the pieces of every expression group, into that resolved tree, so `Group` fails only on runs that are not the pieces of an expression |
| Grouping.NormKeepsResolved | grammar.js:185-306 | a tree already nested as the precedences require is left unchanged |
| Grouping.ChainGroupsLeft | grammar.js:276-297 | any operator and operand written after a whole expression take that expression as their left operand, whatever the operators |
| Grouping.CallTakesWholeLeft | grammar.js:214-218 | an argument list after a whole level-1 expression calls that expression |
| Grouping.PrefixWrapsUnit | grammar.js:299-306 | a prefix operator nests to the right and wraps its operand's postfixes |
| Grouping.SumThenProductExample | grammar.js:289-297 | `a + b * c` groups as `(a + b) * c` |
| Grouping.CompareThenSumExample | grammar.js:276-297 | `a < b + c` groups as `(a < b) + c` |
| Grouping.PrefixThenSumExample | grammar.js:289-306 | `-a + b` groups as `(-a) + b` |
| Grouping.PrefixThenPropertyExample | grammar.js:202-306 | `-a.b` groups as `-(a.b)` |
| Grouping.SumThenCallExample | grammar.js:214-297 | `a + f(x)` groups as `(a + f)(x)` |
| Unparse.StrTokensSpellLiteral | grammar.js:228-229 | the quote, body and quote tokens of a string spell a whole single- or double-quoted literal exactly when the stored quote and body are valid |
| Unparse.BracketTokens | grammar.js:220-235 | a bracketed list's tokens start with its opening bracket and end with its closing one |
| Unparse.ArgListTokens | grammar.js:220-226 | an argument list's tokens open with `(` and close with `)` |
| Unparse.ArgTokens | grammar.js:223-243 | an argument has tokens, and a keyword argument starts with its key and `=` |
| Unparse.DictTokens | grammar.js:235 | a dict's tokens open with `{` and close with `}` |
| Unparse.PairTokens | grammar.js:237 | a pair is its key's tokens, `:`, its value's tokens |
| Unparse.EmptyArgListExamples | grammar.js:220-226 | `()` and `(,)` are argument lists |
| Unparse.LoneCommaListExample | grammar.js:233 | `[,]` is a valid list |
| Unparse.LoneCommaDictExample | grammar.js:235 | `{,}` is a valid dict |
| Unparse.ExprTokensArePieceTokens | grammar.js:185-306 | an expression's tokens are the tokens of its flat pieces, so the nesting is not visible in the tokens |
| Unparse.ExprTokens | grammar.js:185-306 | every expression has at least one token; `Unparse.ExprTokensArePieceTokens` relates them to the flat pieces |
| Unparse.ExprNeverEndsInDash | grammar.js:185-248 | the last token of a valid expression is never `-` |
| Unparse.VariantTokens | grammar.js:57-137 | every variant has at least one token; the lemmas below fix its first and last token |
| Unparse.ImportNameTokens | grammar.js:128-132 | an imported name starts with the name and is one token without an alias, three (`name as alias`) with one |
| Unparse.VariantStartsWithHead | grammar.js:57-137 | each variant's tokens begin with its head keyword |
| Unparse.VariantNeverEndsInDash | grammar.js:57-137 | the last token of a valid variant is never `-`, so a `-` before `%}` is always the trim marker |
| Unparse.StatementTokens | grammar.js:31-55 | a statement's tokens open with `{%` and close with `%}`, and the token after `{%` is `-` exactly when the left trim marker is present |
| Unparse.StripLeadingDash | grammar.js:34 | takes off the optional leading `-` and reports whether it was there |
| Unparse.StripTrailingDash | grammar.js:50 | takes off the optional trailing `-` and reports whether it was there |
| Unparse.SplitStatement | grammar.js:31-55 | the frame recogniser returns trim flags and a non-empty middle that rebuild exactly its input as `{%`, optional `-`, middle, optional `-`, `%}` |
| Unparse.FrameRoundTrip | grammar.js:31-55 | a frame whose middle neither starts nor ends with `-` is read back exactly |
| Unparse.StatementFrameRoundTrip | grammar.js:31-55 | a valid statement's tokens are read back as both trim flags and its variant's tokens, whose first token selects its alternative |
| Unparse.StatementExamples | grammar.js:31-137 | `{% call %}` and `{%- endfor -%}` have the expected tokens; `{% - %}` has no variant and is rejected |
| Unparse.CallBlockTokensAgree | grammar.js:6 | `{% call f(x) %}` has two different trees, callee `f` with parameters `(x)` and callee `f(x)` without parameters, and their tokens are equal |
| Unparse.CallBlockAmbiguity | grammar.js:101-109 | both of those trees are valid whenever `f` and the arguments are |
| Unparse.ForInTokensAgree | grammar.js:57-64 | `{% for a in b in c %}` has two different trees, target `a in b` over `c` and target `a` over `b in c`, and their tokens are equal, because the loop's `in` and the `in` comparison operator are the same token |
| Unparse.ForInAmbiguity | grammar.js:276-287 | both of those trees are valid whenever `a`, `b` and `c` are well formed and `b` and `c` can be right operands of a comparison |
| Unparse.AttributeTokens | grammar.js:177-181 | an attribute's tokens start with its name and are that name alone exactly when it has no value |
| Unparse.ValueTokens | grammar.js:21-29 | a value's tokens open with `{{` and close with `}}` |
| Unparse.NodeTokens | grammar.js:10-183 | every template item has tokens, and every item but free text opens with `{{`, `{%`, `{#` or `<` and closes with `}}`, `%}`, `#}`, `/>` or `>` |
| Unparse.TemplateTokens | grammar.js:10-19 | a template has no tokens exactly when it has no items |
| Unparse.TemplateTokensAppend | grammar.js:10-19 | a template's items are unparsed independently: the tokens of two runs of items are the tokens of each, one after the other |
| Unparse.ElementFrame | grammar.js:150-173 | an element opens with `<` and its tag name; it ends in `/>` exactly when it has no body, and otherwise in `</`, the closing name and `>` |
| Unparse.AttributeValueForms | grammar.js:177-181 | an attribute value is introduced by `=` and starts with a quote or with `{{` |
| Unparse.MismatchedCloseTagAccepted | grammar.js:150-175 | `<a>text</b>` is a valid element: the closing name is not checked against the opening one |
| Unparse.MismatchedCloseTagTokens | grammar.js:150-173 | the tokens of that element are `<`, `a`, `>`, `text`, `</`, `b`, `>` |

## Left out

- The generated LR/GLR parser is not part of this model. That covers its handling of the declared conflicts (grammar.js:4-7), error recovery and incremental re-parsing. `Grouping.Group` gives the tree the precedence annotations fix for a run of pieces. It does not model how the generated parser reaches that tree or resolves the two declared conflicts at run time.
- `Unparse.VariantTokens` is not injective on call blocks. `{% call f(x) %}` has two valid trees with the same tokens, as `Unparse.CallBlockTokensAgree` and `Unparse.CallBlockAmbiguity` show; this is the declared `[jinja_call, _expr]` conflict (grammar.js:6). Which tree the generated parser picks is not modelled. The same holds for `{% for a in b in c %}` (see the next line).
- `Syntax.ValidVariant` accepts both trees of `{% for a in b in c %}`: target `a in b` over `c`, and target `a` over `b in c`. They have the same tokens, as `Unparse.ForInTokensAgree` and `Unparse.ForInAmbiguity` show. This is not one of the declared conflicts; the generated parser settles it from the `prec.left(1)` on `comparison` (grammar.js:276-287) and the `in` keyword of `jinja_for` (grammar.js:57-64). That resolution is not modelled, so `ValidVariant` is weaker than the parser here and does not say which of the two trees a `for` statement gets.
- Lexer priority between overlapping tokens is not modelled: `prec(-1)` on `content`, `prec(1)` on comment content, and the keyword-versus-identifier choice. Each token language is stated on its own. The lexer's choice between them lives in tree-sitter's generator, which is not part of this model.
- The whitespace that tree-sitter skips between tokens (its default `extras`) is not written in `grammar.js`. Token sequences therefore carry no whitespace, and `content` tokens are kept whole as written.
- Statement nesting and `end*` matching are not modelled (a `for` with its `endfor`, a `block` with its `endblock`). The rule table treats each statement as one flat item.
- Byte ranges, positions and diagnostics are not modelled. They come from the tree-sitter runtime, not from the rule table.
- Template execution (rendering, include/extends resolution, trim-marker whitespace removal) is not part of this repository.
- Unparse.StrTokens: a string literal is three tokens, the quote, the body and the quote, as `seq("'", /…/, "'")` spells it. An empty body is kept as an empty token.
- The `Grouping` pieces keep bracketed sub-expressions whole (an index, arguments, list and dict items). Grouping inside them is the same function applied to their own pieces, and that recursion is not written out.
