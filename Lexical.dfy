/** The token languages of the Jinja2 grammar: every regular expression of the
    rule table as a recogniser over characters, and the structural facts that
    each expression guarantees, proved as characterisations of the recogniser. */
module Lexical {

  // ---------------------------------------------------------------------------
  // Character classes
  // ---------------------------------------------------------------------------

  predicate IsLetter(c: char) { 'a' <= c <= 'z' || 'A' <= c <= 'Z' }

  predicate IsDigit(c: char) { '0' <= c <= '9' }

  /** `[\+-]` */
  predicate IsSign(c: char) { c == '+' || c == '-' }

  /** `[a-zA-Z_]`, the first character of an identifier */
  predicate IsIdentStart(c: char) { IsLetter(c) || c == '_' }

  /** `[a-zA-Z0-9_]` */
  predicate IsIdentChar(c: char) { IsLetter(c) || IsDigit(c) || c == '_' }

  /** `[a-zA-Z0-9-]`, the later characters of a tag or attribute name */
  predicate IsNameChar(c: char) { IsLetter(c) || IsDigit(c) || c == '-' }

  predicate IsQuote(c: char) { c == '\'' || c == '"' }

  /** Walks `s` and checks every character against a character class. */
  predicate AllOf(s: string, inClass: char -> bool)
    decreases |s|
  {
    s == [] || (inClass(s[0]) && AllOf(s[1..], inClass))
  }

  lemma {:induction false} AllOfShape(s: string, inClass: char -> bool)
    ensures AllOf(s, inClass) <==> forall i :: 0 <= i < |s| ==> inClass(s[i])
    decreases |s|
  {
    if s != [] {
      AllOfShape(s[1..], inClass);
      assert forall i :: 1 <= i < |s| ==> s[1..][i - 1] == s[i];
    }
  }

  // ---------------------------------------------------------------------------
  // content: ([^<{] | [{][^{%#])+
  // ---------------------------------------------------------------------------

  /** Zero or more chunks of `content`: a character other than `<` and `{`,
      or a `{` followed by a character other than `{`, `%` and `#`. */
  predicate ContentChunks(s: string)
    decreases |s|
  {
    || s == []
    || (s[0] != '<' && s[0] != '{' && ContentChunks(s[1..]))
    || (|s| >= 2 && s[0] == '{' && s[1] != '{' && s[1] != '%' && s[1] != '#' && ContentChunks(s[2..]))
  }

  /** The `content` token: free text between markup and template delimiters. */
  predicate Content(s: string) { |s| > 0 && ContentChunks(s) }

  /** Every `{` is followed by a character that does not open a delimiter. */
  predicate BracesGuarded(s: string)
  {
    forall i :: 0 <= i < |s| && s[i] == '{' ==> i + 1 < |s| && s[i + 1] != '{' && s[i + 1] != '%' && s[i + 1] != '#'
  }

  /** Every `<` comes directly after a `{`. */
  predicate AnglesGuarded(s: string)
  {
    forall i :: 0 <= i < |s| && s[i] == '<' ==> 0 < i && s[i - 1] == '{'
  }

  lemma {:induction false} ContentChunksShape(s: string)
    ensures ContentChunks(s) <==> BracesGuarded(s) && AnglesGuarded(s)
    decreases |s|
  {
    if s == [] {
      return;
    }
    if s[0] != '{' {
      var t := s[1..];
      ContentChunksShape(t);
      assert forall k :: 0 <= k < |t| ==> t[k] == s[k + 1];
    } else if |s| >= 2 {
      var t := s[2..];
      ContentChunksShape(t);
      assert forall k :: 0 <= k < |t| ==> t[k] == s[k + 2];
      if BracesGuarded(s) && AnglesGuarded(s) {
        assert s[1] != '{';
        assert BracesGuarded(t);
        assert AnglesGuarded(t);
      }
    } else {
      assert !BracesGuarded(s) by {
        assert s[0] == '{';
      }
    }
  }

  /** A `content` token is non-empty, never holds `{{`, `{%` or `{#`, never ends in `{`,
      and holds a `<` only right after a `{`. */
  lemma ContentShape(s: string)
    ensures Content(s) <==> |s| > 0 && BracesGuarded(s) && AnglesGuarded(s)
  {
    ContentChunksShape(s);
  }

  /** The consequences of ContentShape written out position by position. */
  lemma ContentNeverOpensDelimiter(s: string, i: nat)
    requires Content(s) && i < |s|
    ensures s[i] == '{' ==> i + 1 < |s| && s[i + 1] != '{' && s[i + 1] != '%' && s[i + 1] != '#'
    ensures s[i] == '<' ==> 0 < i && s[i - 1] == '{'
    ensures s[|s| - 1] != '{'
  {
    ContentShape(s);
    if s[i] == '<' && 0 < i {
      assert s[(i - 1) + 1] == '<';
    }
  }

  // ---------------------------------------------------------------------------
  // jinja_comment_content: ([^#] | #[^}])*
  // ---------------------------------------------------------------------------

  /** The text between `{#` and `#}`: chunks that are a character other than `#`,
      or a `#` followed by a character other than `}`. */
  predicate CommentContent(s: string)
    decreases |s|
  {
    || s == []
    || (s[0] != '#' && CommentContent(s[1..]))
    || (|s| >= 2 && s[0] == '#' && s[1] != '}' && CommentContent(s[2..]))
  }

  /** The chunking of comment content is deterministic, so valid content followed by
      more text is valid exactly when the rest is. */
  lemma {:induction false} CommentContentAppend(s: string, t: string)
    requires CommentContent(s)
    ensures CommentContent(s + t) <==> CommentContent(t)
    decreases |s|
  {
    if s == [] {
      assert s + t == t;
    } else if s[0] != '#' {
      assert (s + t)[1..] == s[1..] + t;
      CommentContentAppend(s[1..], t);
    } else {
      assert (s + t)[2..] == s[2..] + t;
      CommentContentAppend(s[2..], t);
    }
  }

  /** Comment content cannot run on through a `#}` that starts right after complete
      content: the comment closes there. */
  lemma CommentStopsAtClose(s: string, t: string)
    requires CommentContent(s)
    ensures !CommentContent(s + "#}" + t)
  {
    assert s + "#}" + t == s + ("#}" + t);
    CommentContentAppend(s, "#}" + t);
  }

  /** The number of consecutive `#` that end just before position `j`. */
  function HashRun(s: string, j: nat): (n: nat)
    requires j <= |s|
    ensures n <= j
    ensures forall k :: j - n <= k < j ==> s[k] == '#'
    ensures j - n == 0 || s[j - n - 1] != '#'
  {
    if j > 0 && s[j - 1] == '#' then 1 + HashRun(s, j - 1) else 0
  }

  /** Every `}` and the end of the text come after an even run of `#`: no
      `#` is left over to close the comment early or to dangle at the end. */
  predicate ClosesGuarded(s: string)
  {
    forall j :: 0 <= j <= |s| && (j == |s| || s[j] == '}') ==> HashRun(s, j) % 2 == 0
  }

  lemma {:induction false} HashRunDrop1(s: string, j: nat)
    requires 1 <= j <= |s| && s[0] != '#'
    ensures HashRun(s, j) == HashRun(s[1..], j - 1)
    decreases j
  {
    if s[j - 1] == '#' {
      HashRunDrop1(s, j - 1);
    }
  }

  lemma {:induction false} HashRunDrop2(s: string, j: nat)
    requires 2 <= j <= |s| && s[0] == '#'
    ensures HashRun(s, j) % 2 == HashRun(s[2..], j - 2) % 2
    decreases j
  {
    if s[j - 1] == '#' {
      if j == 2 {
        if s[1] == '#' {
          assert HashRun(s, 2) == 2;
        }
      } else {
        HashRunDrop2(s, j - 1);
      }
    }
  }

  lemma GuardedDrop1(s: string)
    requires |s| > 0 && s[0] != '#'
    ensures ClosesGuarded(s) <==> ClosesGuarded(s[1..])
  {
    var t := s[1..];
    if ClosesGuarded(s) {
      forall j | 0 <= j <= |t| && (j == |t| || t[j] == '}')
        ensures HashRun(t, j) % 2 == 0
      {
        HashRunDrop1(s, j + 1);
      }
    }
    if ClosesGuarded(t) {
      forall j | 0 <= j <= |s| && (j == |s| || s[j] == '}')
        ensures HashRun(s, j) % 2 == 0
      {
        if j > 0 {
          HashRunDrop1(s, j);
        }
      }
    }
  }

  lemma GuardedDrop2(s: string)
    requires |s| > 0 && s[0] == '#'
    ensures ClosesGuarded(s) <==> |s| >= 2 && s[1] != '}' && ClosesGuarded(s[2..])
  {
    assert HashRun(s, 1) == 1;
    if |s| >= 2 {
      var t := s[2..];
      if ClosesGuarded(s) {
        forall j | 0 <= j <= |t| && (j == |t| || t[j] == '}')
          ensures HashRun(t, j) % 2 == 0
        {
          HashRunDrop2(s, j + 2);
        }
      }
      if s[1] != '}' && ClosesGuarded(t) {
        forall j | 0 <= j <= |s| && (j == |s| || s[j] == '}')
          ensures HashRun(s, j) % 2 == 0
        {
          if j >= 2 {
            HashRunDrop2(s, j);
          }
        }
      }
    }
  }

  /** Comment content is exactly the text in which every `}` and the end are
      preceded by an even number of consecutive `#`. */
  lemma {:induction false} CommentContentShape(s: string)
    ensures CommentContent(s) <==> ClosesGuarded(s)
    decreases |s|
  {
    if s == [] {
    } else if s[0] != '#' {
      CommentContentShape(s[1..]);
      GuardedDrop1(s);
    } else {
      GuardedDrop2(s);
      if |s| >= 2 {
        CommentContentShape(s[2..]);
      }
    }
  }

  // ---------------------------------------------------------------------------
  // _identifier: [a-zA-Z_][a-zA-Z0-9_]*
  // html_tag_name, html_attribute_name: [a-zA-Z][a-zA-Z0-9-]*
  // ---------------------------------------------------------------------------

  predicate Identifier(s: string) { |s| > 0 && IsIdentStart(s[0]) && AllOf(s[1..], IsIdentChar) }

  /** The one language shared by tag names and attribute names. */
  predicate HtmlName(s: string) { |s| > 0 && IsLetter(s[0]) && AllOf(s[1..], IsNameChar) }

  lemma IdentifierShape(s: string)
    ensures Identifier(s) <==> |s| > 0 && IsIdentStart(s[0]) && forall i :: 1 <= i < |s| ==> IsIdentChar(s[i])
  {
    if |s| > 0 {
      AllOfShape(s[1..], IsIdentChar);
      assert forall i :: 1 <= i < |s| ==> s[1..][i - 1] == s[i];
    }
  }

  lemma HtmlNameShape(s: string)
    ensures HtmlName(s) <==> |s| > 0 && IsLetter(s[0]) && forall i :: 1 <= i < |s| ==> IsNameChar(s[i])
  {
    if |s| > 0 {
      AllOfShape(s[1..], IsNameChar);
      assert forall i :: 1 <= i < |s| ==> s[1..][i - 1] == s[i];
    }
  }

  /** Tag names and identifiers differ only in `-` against `_` and a leading `_`. */
  lemma HtmlNameVersusIdentifier(s: string)
    ensures HtmlName(s) && '-' !in s ==> Identifier(s)
    ensures Identifier(s) && IsLetter(s[0]) && '_' !in s ==> HtmlName(s)
  {
    IdentifierShape(s);
    HtmlNameShape(s);
  }

  // ---------------------------------------------------------------------------
  // lit_string bodies: ([^']|\\')*  and  ([^"]|\\")*
  // ---------------------------------------------------------------------------

  /** The body of a string literal quoted by `q`: chunks that are a character other
      than `q`, or a backslash followed by `q`. */
  predicate StringBody(q: char, s: string)
    decreases |s|
  {
    || s == []
    || (s[0] != q && StringBody(q, s[1..]))
    || (|s| >= 2 && s[0] == '\\' && s[1] == q && StringBody(q, s[2..]))
  }

  /** Every occurrence of the quote comes directly after a backslash. */
  predicate QuotesEscaped(q: char, s: string)
  {
    forall i :: 0 <= i < |s| && s[i] == q ==> 0 < i && s[i - 1] == '\\'
  }

  lemma {:induction false} StringBodyShape(q: char, s: string)
    requires IsQuote(q)
    ensures StringBody(q, s) <==> QuotesEscaped(q, s)
    decreases |s|
  {
    if s == [] {
      return;
    }
    if |s| >= 2 && s[0] == '\\' && s[1] == q {
      var t := s[2..];
      StringBodyShape(q, t);
      assert forall k :: 0 <= k < |t| ==> t[k] == s[k + 2];
      var u := s[1..];
      StringBodyShape(q, u);
      assert forall k :: 0 <= k < |u| ==> u[k] == s[k + 1];
    } else {
      var u := s[1..];
      StringBodyShape(q, u);
      assert forall k :: 0 <= k < |u| ==> u[k] == s[k + 1];
      if |s| >= 2 && s[1] == q && s[0] != '\\' {
        assert !QuotesEscaped(q, s) by {
          assert s[0 + 1] == q;
        }
      }
    }
  }

  /** A whole string literal, quotes included. */
  predicate StringLiteral(s: string)
  {
    |s| >= 2 && IsQuote(s[0]) && s[|s| - 1] == s[0] && StringBody(s[0], s[1..|s| - 1])
  }

  // ---------------------------------------------------------------------------
  // integer: [\+-]? (_?[0-9]+)+
  // ---------------------------------------------------------------------------

  /** `repeat1(/_?[0-9]+/)`: one or more groups, each an optional `_` and digits. */
  predicate IntGroups(s: string)
    decreases |s|, 0
  {
    && |s| > 0
    && if s[0] == '_' then |s| > 1 && IsDigit(s[1]) && IntGroupTail(s[2..])
       else IsDigit(s[0]) && IntGroupTail(s[1..])
  }

  /** What may follow at least one digit of a group: nothing, more digits of
      the same group, or further groups. */
  predicate IntGroupTail(s: string)
    decreases |s|, 1
  {
    s == [] || (IsDigit(s[0]) && IntGroupTail(s[1..])) || IntGroups(s)
  }

  predicate IntegerLit(s: string)
  {
    (|s| > 0 && IsSign(s[0]) && IntGroups(s[1..])) || IntGroups(s)
  }

  predicate DigitsAndUnderscores(s: string)
  {
    forall i :: 0 <= i < |s| ==> IsDigit(s[i]) || s[i] == '_'
  }

  predicate NoDoubleUnderscore(s: string)
  {
    forall i :: 0 <= i < |s| - 1 && s[i] == '_' ==> s[i + 1] != '_'
  }

  /** Digits with single `_` separators, ending in a digit. */
  predicate UnderscoredDigits(s: string)
  {
    |s| > 0 && DigitsAndUnderscores(s) && NoDoubleUnderscore(s) && IsDigit(s[|s| - 1])
  }

  lemma {:induction false} IntGroupsShape(s: string)
    ensures IntGroups(s) <==> UnderscoredDigits(s)
    ensures IntGroupTail(s) <==> s == [] || UnderscoredDigits(s)
    decreases |s|
  {
    if s == [] {
      return;
    }
    var u := s[1..];
    IntGroupsShape(u);
    assert forall k :: 0 <= k < |u| ==> u[k] == s[k + 1];
    if |s| >= 2 {
      var t := s[2..];
      IntGroupsShape(t);
      assert forall k :: 0 <= k < |t| ==> t[k] == s[k + 2];
    }
    if s[0] == '_' {
      if UnderscoredDigits(s) {
        assert |s| > 1;
        assert s[1] != '_' by { assert s[0] == '_'; }
      }
    } else if IsDigit(s[0]) {
      if UnderscoredDigits(u) {
        assert NoDoubleUnderscore(s);
      }
    }
  }

  /** An integer is an optional sign and underscore-separated digits: it holds a digit,
      never `__`, and never ends in `_`; a leading `_` after the sign is accepted. */
  lemma IntegerShape(s: string)
    ensures IntegerLit(s) <==> (|s| > 0 && IsSign(s[0]) && UnderscoredDigits(s[1..])) || UnderscoredDigits(s)
  {
    IntGroupsShape(s);
    if |s| > 0 {
      IntGroupsShape(s[1..]);
    }
  }

  // ---------------------------------------------------------------------------
  // float
  // ---------------------------------------------------------------------------

  /** `repeat1(/[0-9]+_?/)`: pieces of digits, each optionally closed by `_`. */
  predicate FloatDigits(s: string)
    decreases |s|, 0
  {
    |s| > 0 && IsDigit(s[0]) && FloatDigitTail(s[1..])
  }

  /** What may follow a digit inside `digits`. */
  predicate FloatDigitTail(s: string)
    decreases |s|, 1
  {
    || s == []
    || (IsDigit(s[0]) && FloatDigitTail(s[1..]))
    || (s[0] == '_' && (s[1..] == [] || FloatDigits(s[1..])))
  }

  /** `seq(/[eE][\+-]?/, digits)` */
  predicate Exponent(s: string)
  {
    && |s| >= 2
    && (s[0] == 'e' || s[0] == 'E')
    && if IsSign(s[1]) then FloatDigits(s[2..]) else FloatDigits(s[1..])
  }

  /** `digits optional(exponent)` */
  predicate DigitsOptExponent(s: string)
  {
    exists j :: 0 < j <= |s| && FloatDigits(s[..j]) && (j == |s| || Exponent(s[j..]))
  }

  /** `optional(digits) optional(exponent)` */
  predicate OptDigitsOptExponent(s: string)
  {
    s == [] || Exponent(s) || DigitsOptExponent(s)
  }

  /** The first two alternatives after the optional sign:
      `digits "." optional(digits) optional(exponent)` and
      `optional(digits) "." digits optional(exponent)`. */
  predicate PointForm(s: string)
  {
    exists i :: 0 <= i < |s| && s[i] == '.' &&
      (|| (FloatDigits(s[..i]) && OptDigitsOptExponent(s[i + 1..]))
       || ((i == 0 || FloatDigits(s[..i])) && DigitsOptExponent(s[i + 1..])))
  }

  /** The third alternative, `digits exponent`, which takes no sign. */
  predicate ExponentForm(s: string)
  {
    exists j :: 0 < j < |s| && FloatDigits(s[..j]) && Exponent(s[j..])
  }

  predicate FloatLit(s: string)
  {
    (|s| > 0 && IsSign(s[0]) && PointForm(s[1..])) || PointForm(s) || ExponentForm(s)
  }

  /** The two alternatives with a decimal point do contain one. */
  lemma PointFormHasPoint(s: string)
    ensures PointForm(s) ==> '.' in s
  {
    if PointForm(s) {
      var i :| 0 <= i < |s| && s[i] == '.';
    }
  }

  /** Every float has a decimal point or an exponent marker. */
  lemma FloatHasMarker(s: string)
    ensures FloatLit(s) ==> '.' in s || 'e' in s || 'E' in s
  {
    PointFormHasPoint(s);
    if |s| > 0 {
      PointFormHasPoint(s[1..]);
    }
    if ExponentForm(s) {
      var j :| 0 < j < |s| && FloatDigits(s[..j]) && Exponent(s[j..]);
      assert s[j] == s[j..][0];
    }
  }

  /** A float without a decimal point is the `digits exponent` form, so it starts
      with a digit: it has no sign. */
  lemma FloatWithoutPointIsUnsigned(s: string)
    requires FloatLit(s) && '.' !in s
    ensures IsDigit(s[0])
  {
    PointFormHasPoint(s);
    PointFormHasPoint(s[1..]);
    var j :| 0 < j < |s| && FloatDigits(s[..j]) && Exponent(s[j..]);
    assert s[..j][0] == s[0];
  }

  /** An integer consists of a sign, digits and underscores only. */
  lemma IntegerHasNoMarker(s: string)
    requires IntegerLit(s)
    ensures '.' !in s && 'e' !in s && 'E' !in s
  {
    IntegerShape(s);
    if |s| > 0 && IsSign(s[0]) && UnderscoredDigits(s[1..]) {
      assert forall k :: 1 <= k < |s| ==> s[k] == s[1..][k - 1];
    }
  }

  /** No lexeme is both an integer and a float. */
  lemma IntegerIsNotFloat(s: string)
    requires IntegerLit(s)
    ensures !FloatLit(s)
  {
    IntegerHasNoMarker(s);
    FloatHasMarker(s);
  }

  // ---------------------------------------------------------------------------
  // Worked lexemes
  // ---------------------------------------------------------------------------

  /** `{##}` is a whole comment, `##}` is still comment content (the `}` is taken as
      an ordinary character), and the interior `#` of `{# a # b #}` is ordinary text. */
  lemma CommentExamples()
    ensures CommentContent("")
    ensures CommentContent("##}")
    ensures CommentContent(" a # b ")
    ensures !CommentContent(" a #}")
  {
    assert CommentContent(" a # b ") by {
      assert CommentContent(" b ");
      assert CommentContent("# b ") by { assert "# b "[2..] == "b "; }
    }
    CommentStopsAtClose(" a ", "");
    assert " a " + "#}" + "" == " a #}";
  }

  /** The integer language accepts a leading `_` and rejects a doubled or trailing `_`. */
  lemma IntegerExamples()
    ensures IntegerLit("_1") && IntegerLit("-1_000") && IntegerLit("+_7")
    ensures !IntegerLit("1__0") && !IntegerLit("1_") && !IntegerLit("-")
  {
    IntegerShape("1__0");
    assert "1__0"[1] == '_' && "1__0"[2] == '_';
    IntegerShape("1_");
    IntegerShape("-");
    assert "-"[1..] == [];
  }

  /** The first float form: digits, a point and nothing after it. */
  lemma FloatPointLast()
    ensures FloatLit("1.")
  {
    var u := "1.";
    assert u[..1] == "1" && u[1 + 1..] == [];
    assert FloatDigits(u[..1]) && OptDigitsOptExponent(u[1 + 1..]);
    assert PointForm(u);
  }

  /** The second float form: no digits before the point. */
  lemma FloatPointFirst()
    ensures FloatLit(".5")
  {
    var u := ".5";
    assert u[..0] == [] && u[0 + 1..] == "5" && "5"[..1] == "5";
    assert DigitsOptExponent(u[0 + 1..]);
    assert PointForm(u);
  }

  /** A signed float with both a point and a signed exponent. */
  lemma FloatSignedWithExponent()
    ensures FloatLit("-2.5e+3")
  {
    var u := "2.5e+3";
    var t := "5e+3";
    assert u[..1] == "2" && u[1 + 1..] == t;
    assert t[..1] == "5" && t[1..] == "e+3" && "e+3"[2..] == "3";
    assert Exponent(t[1..]);
    assert DigitsOptExponent(t);
    assert FloatDigits(u[..1]) && OptDigitsOptExponent(u[1 + 1..]);
    assert PointForm(u);
    assert "-2.5e+3"[1..] == u;
  }

  /** The third float form takes no sign, and a plain digit run is no float. */
  lemma FloatExponentOnly()
    ensures FloatLit("1e5") && !FloatLit("+1e5") && !FloatLit("12")
  {
    var u := "1e5";
    assert u[..1] == "1" && u[1..] == "e5" && "e5"[1..] == "5";
    assert FloatDigits(u[..1]) && Exponent(u[1..]);
    assert ExponentForm(u);
    FloatHasMarker("+1e5");
    if FloatLit("+1e5") {
      FloatWithoutPointIsUnsigned("+1e5");
    }
    FloatHasMarker("12");
  }

  /** A lone `{` is content; `{{` and a `<` that does not follow `{` are not. */
  lemma ContentExamples()
    ensures Content("a { b") && Content("{<")
    ensures !Content("a {{ b") && !Content("a <b") && !Content("x{")
  {
    ContentShape("a { b");
    ContentShape("{<");
    ContentShape("a {{ b");
    assert "a {{ b"[2] == '{';
    ContentShape("a <b");
    assert "a <b"[2] == '<';
    ContentShape("x{");
    assert "x{"[1] == '{';
  }
}
