/** Reading the built text back: a lexer and a parser in which AND binds tighter
    than OR, and the proof that they recover the filter tree. */
module FilterParsing {
  import opened Prelude
  import opened Filters

  // ----- lexer ------------------------------------------------------------

  datatype Token = Word(text: string) | LParen | RParen | Mark

  predicate WordChar(c: char) { c != ' ' && c != '(' && c != ')' && c != '?' }

  function WordLength(s: string): (n: nat)
    ensures n <= |s| && (forall i | 0 <= i < n :: WordChar(s[i])) && (n < |s| ==> !WordChar(s[n]))
  {
    if s == "" || !WordChar(s[0]) then 0 else 1 + WordLength(s[1..])
  }

  function Lex(s: string): seq<Token>
    decreases |s|
  {
    if s == "" then []
    else if s[0] == ' ' then Lex(s[1..])
    else if s[0] == '(' then [LParen] + Lex(s[1..])
    else if s[0] == ')' then [RParen] + Lex(s[1..])
    else if s[0] == '?' then [Mark] + Lex(s[1..])
    else var n := WordLength(s); [Word(s[..n])] + Lex(s[n..])
  }

  // ----- parser -----------------------------------------------------------

  datatype Expr = Test(field: string, op: Op) | All(items: seq<Expr>) | Any(items: seq<Expr>)

  datatype Parsed<T> = Fail | Parsed(value: T, rest: seq<Token>)

  function OpTokens(op: Op): seq<Token> {
    match op
    case IsNull => [Word("IS"), Word("NULL")]
    case IsNotNull => [Word("IS"), Word("NOT"), Word("NULL")]
    case In => [Word("IN"), LParen, Mark, RParen]
    case NotIn => [Word("NOT"), Word("IN"), LParen, Mark, RParen]
    case Like => [Word("LIKE"), Mark, Word("ESCAPE"), Word("'!'")]
    case ILike => [Word("ILIKE"), Mark, Word("ESCAPE"), Word("'!'")]
    case _ => [Word(OpText(op)), Mark]
  }

  /** The only operator whose tokens these can start with. */
  function Candidate(first: Token, second: Token): Op {
    if first == Word("IS") then (if second == Word("NULL") then IsNull else IsNotNull)
    else if first == Word("NOT") then NotIn
    else if first == Word("IN") then In
    else if first == Word("LIKE") then Like
    else if first == Word("ILIKE") then ILike
    else if first == Word("=") then Eq
    else if first == Word("<>") then Neq
    else if first == Word(">") then Gt
    else if first == Word(">=") then Gte
    else if first == Word("<") then Lt
    else Lte
  }

  function ParseOp(ts: seq<Token>): Option<Op> {
    if |ts| >= 2 && OpTokens(Candidate(ts[0], ts[1])) <= ts then Some(Candidate(ts[0], ts[1])) else None
  }

  predicate StartsWith(ts: seq<Token>, word: string) { ts != [] && ts[0] == Word(word) }

  function MkAll(items: seq<Expr>): Expr { if |items| == 1 then items[0] else All(items) }

  function MkAny(items: seq<Expr>): Expr { if |items| == 1 then items[0] else Any(items) }

  function ParsePrim(ts: seq<Token>): (p: Parsed<Expr>)
    ensures p.Parsed? ==> |p.rest| < |ts|
    decreases |ts|, 0
  {
    if ts == [] then Fail
    else match ts[0]
         case LParen =>
           (match ParseOr(ts[1..])
            case Fail => Fail
            case Parsed(e, rest) => if rest != [] && rest[0].RParen? then Parsed(e, rest[1..]) else Fail)
         case Word(field) =>
           var op := ParseOp(ts[1..]);
           if op.Some? && |OpTokens(op.value)| <= |ts[1..]|
           then Parsed(Test(field, op.value), ts[1..][|OpTokens(op.value)|..]) else Fail
         case _ => Fail
  }

  function ParseAnds(ts: seq<Token>): (p: Parsed<seq<Expr>>)
    ensures p.Parsed? ==> |p.rest| < |ts| && p.value != []
    decreases |ts|, 1
  {
    match ParsePrim(ts)
    case Fail => Fail
    case Parsed(e, rest) =>
      if !StartsWith(rest, "AND") then Parsed([e], rest)
      else match ParseAnds(rest[1..])
           case Fail => Fail
           case Parsed(more, rest) => Parsed([e] + more, rest)
  }

  function ParseOrs(ts: seq<Token>): (p: Parsed<seq<Expr>>)
    ensures p.Parsed? ==> |p.rest| < |ts| && p.value != []
    decreases |ts|, 2
  {
    match ParseAnds(ts)
    case Fail => Fail
    case Parsed(items, rest) =>
      if !StartsWith(rest, "OR") then Parsed([MkAll(items)], rest)
      else match ParseOrs(rest[1..])
           case Fail => Fail
           case Parsed(more, rest) => Parsed([MkAll(items)] + more, rest)
  }

  function ParseOr(ts: seq<Token>): (p: Parsed<Expr>)
    ensures p.Parsed? ==> |p.rest| < |ts|
    decreases |ts|, 3
  {
    match ParseOrs(ts)
    case Fail => Fail
    case Parsed(items, rest) => Parsed(MkAny(items), rest)
  }

  function Parse(text: string): Option<Expr> {
    match ParseOr(Lex(text))
    case Fail => None
    case Parsed(e, rest) => if rest == [] then Some(e) else None
  }

  // ----- the tree, normalised ---------------------------------------------

  /** A group with nothing but empty groups in it. */
  predicate Empty(f: Filter) { f.Group? && AllEmpty(f.filters) }

  predicate AllEmpty(filters: seq<Filter>) { filters == [] || (Empty(filters[0]) && AllEmpty(filters[1..])) }

  predicate IsWord(s: string) { s != "" && forall c <- s :: WordChar(c) }

  predicate FieldsAreWords(f: Filter) {
    match f
    case Cond(field, _, _) => IsWord(field)
    case Group(_, filters) => forall g <- filters :: FieldsAreWords(g)
  }

  /** Empty groups pruned, unknown group operators read as AND; a group of one is
      its member, since its text is that member in parentheses whatever its operator. */
  function Norm(f: Filter): Expr
    requires !Empty(f)
  {
    match f
    case Cond(field, op, _) => Test(field, op)
    case Group(op, filters) => if op.Or? then MkAny(NormAll(filters)) else MkAll(NormAll(filters))
  }

  function NormAll(filters: seq<Filter>): seq<Expr> {
    if filters == [] then []
    else (if Empty(filters[0]) then [] else [Norm(filters[0])]) + NormAll(filters[1..])
  }

  function Tokens(f: Filter): seq<Token>
    requires !Empty(f)
  {
    match f
    case Cond(field, op, _) => [Word(field)] + OpTokens(op)
    case Group(op, filters) => [LParen] + JoinTokens(TokensAll(filters), Keyword(op)) + [RParen]
  }

  function TokensAll(filters: seq<Filter>): seq<seq<Token>> {
    if filters == [] then []
    else (if Empty(filters[0]) then [] else [Tokens(filters[0])]) + TokensAll(filters[1..])
  }

  function JoinTokens(parts: seq<seq<Token>>, keyword: string): seq<Token> {
    if parts == [] then []
    else if |parts| == 1 then parts[0]
    else parts[0] + [Word(keyword)] + JoinTokens(parts[1..], keyword)
  }

  // ----- lexing the text gives the tokens ---------------------------------

  predicate Delimited(rest: string) { rest == "" || !WordChar(rest[0]) }

  predicate LexesBefore(text: string, tokens: seq<Token>, rest: string) { Lex(text + rest) == tokens + Lex(rest) }

  ghost predicate Lexes(text: string, tokens: seq<Token>) {
    forall rest | Delimited(rest) :: LexesBefore(text, tokens, rest)
  }

  lemma {:induction false} WordLengthOf(w: string, rest: string)
    requires (forall c <- w :: WordChar(c)) && Delimited(rest)
    ensures WordLength(w + rest) == |w|
  {
    if w != "" {
      assert (w + rest)[1..] == w[1..] + rest;
      WordLengthOf(w[1..], rest);
    } else {
      assert w + rest == rest;
    }
  }

  lemma LexWord(w: string, rest: string)
    requires IsWord(w) && Delimited(rest)
    ensures Lex(w + rest) == [Word(w)] + Lex(rest)
  {
    WordLengthOf(w, rest);
    assert (w + rest)[0] in w;
    assert (w + rest)[..|w|] == w && (w + rest)[|w|..] == rest;
  }

  lemma LexPunctuation(c: char, rest: string)
    ensures c == ' ' ==> Lex([c] + rest) == Lex(rest)
    ensures c == '(' ==> Lex([c] + rest) == [LParen] + Lex(rest)
    ensures c == ')' ==> Lex([c] + rest) == [RParen] + Lex(rest)
    ensures c == '?' ==> Lex([c] + rest) == [Mark] + Lex(rest)
  {
    assert ([c] + rest)[1..] == rest;
  }

  lemma LexSpacedWord(spaced: string, w: string)
    requires IsWord(w) && spaced == " " + w
    ensures Lexes(spaced, [Word(w)])
  {
    forall rest | Delimited(rest)
      ensures LexesBefore(spaced, [Word(w)], rest)
    {
      assert spaced + rest == [' '] + (w + rest);
      LexPunctuation(' ', w + rest);
      LexWord(w, rest);
    }
  }

  lemma LexBoth(a: string, ta: seq<Token>, b: string, tb: seq<Token>, rest: string)
    requires Lexes(a, ta) && Lexes(b, tb) && Delimited(b) && Delimited(rest)
    ensures LexesBefore(a + b, ta + tb, rest)
  {
    assert Delimited(b + rest) by { if b == "" { assert b + rest == rest; } }
    assert LexesBefore(b, tb, rest);
    assert LexesBefore(a, ta, b + rest);
    Reassociate(a, b, rest);
    Reassociate(ta, tb, Lex(rest));
  }

  lemma LexAppend(a: string, ta: seq<Token>, b: string, tb: seq<Token>)
    requires Lexes(a, ta) && Lexes(b, tb) && Delimited(b)
    ensures Lexes(a + b, ta + tb)
  {
    forall rest | Delimited(rest)
      ensures LexesBefore(a + b, ta + tb, rest)
    {
      LexBoth(a, ta, b, tb, rest);
    }
  }

  lemma LexMark()
    ensures Lexes(" ?", [Mark])
  {
    forall rest | Delimited(rest)
      ensures LexesBefore(" ?", [Mark], rest)
    {
      LexPunctuation('?', rest);
      LexPunctuation(' ', ['?'] + rest);
      assert " ?" + rest == [' '] + (['?'] + rest);
    }
  }

  lemma LexGroup(text: string, tokens: seq<Token>)
    requires Lexes(text, tokens)
    ensures Lexes("(" + text + ")", [LParen] + tokens + [RParen])
  {
    forall rest | Delimited(rest)
      ensures LexesBefore("(" + text + ")", [LParen] + tokens + [RParen], rest)
    {
      LexGroupBefore(text, tokens, rest);
    }
  }

  lemma LexGroupBefore(text: string, tokens: seq<Token>, rest: string)
    requires LexesBefore(text, tokens, [')'] + rest)
    ensures LexesBefore("(" + text + ")", [LParen] + tokens + [RParen], rest)
  {
    LexPunctuation(')', rest);
    LexPunctuation('(', text + ([')'] + rest));
    GroupSpelling(text, rest);
    Enclosed(LParen, tokens, RParen, Lex(rest));
  }

  lemma GroupSpelling(text: string, rest: string)
    ensures "(" + text + ")" + rest == ['('] + (text + ([')'] + rest))
  {
  }

  lemma Enclosed(a: Token, tokens: seq<Token>, b: Token, rest: seq<Token>)
    ensures [a] + tokens + [b] + rest == [a] + (tokens + ([b] + rest))
  {
  }

  lemma LexSpaced(text: string, tokens: seq<Token>)
    requires Lexes(text, tokens)
    ensures Lexes(" " + text, tokens)
  {
    forall rest | Delimited(rest)
      ensures LexesBefore(" " + text, tokens, rest)
    {
      LexPunctuation(' ', text + rest);
      assert LexesBefore(text, tokens, rest);
      assert " " + text + rest == [' '] + (text + rest);
    }
  }

  lemma LexListBefore(rest: string)
    ensures LexesBefore(" (?)", [LParen, Mark, RParen], rest)
  {
    var close := [')'] + rest;
    var mark := ['?'] + close;
    var open := ['('] + mark;
    LexPunctuation(')', rest);
    LexPunctuation('?', close);
    LexPunctuation('(', mark);
    LexPunctuation(' ', open);
    ListSpelling(rest);
    ThreeTokens(LParen, Mark, RParen, Lex(rest));
  }

  lemma ThreeTokens(a: Token, b: Token, c: Token, rest: seq<Token>)
    ensures [a, b, c] + rest == [a] + ([b] + ([c] + rest))
  {
  }

  lemma ListSpelling(rest: string)
    ensures " (?)" + rest == [' '] + (['('] + (['?'] + ([')'] + rest)))
  {
  }

  lemma LexList()
    ensures Lexes(" (?)", [LParen, Mark, RParen])
  {
    forall rest | Delimited(rest)
      ensures LexesBefore(" (?)", [LParen, Mark, RParen], rest)
    {
      LexListBefore(rest);
    }
  }

  lemma LexSuffix(op: Op)
    ensures Lexes(Suffix(op), OpTokens(op))
  {
    match op
    case IsNull => LexIsNull();
    case IsNotNull => LexIsNotNull();
    case In => LexIn();
    case NotIn => LexNotIn();
    case Like => LexLike(op, "LIKE");
    case ILike => LexLike(op, "ILIKE");
    case _ => LexComparison(OpText(op));
  }

  lemma LexComparison(text: string)
    requires IsWord(text)
    ensures Lexes(" " + text + " ?", [Word(text), Mark])
  {
    LexMark();
    LexSpacedWord(" " + text, text);
    LexAppend(" " + text, [Word(text)], " ?", [Mark]);
    assert [Word(text)] + [Mark] == [Word(text), Mark];
  }

  lemma LexNotIn()
    ensures Lexes(" NOT IN (?)", OpTokens(NotIn))
  {
    LexIn();
    LexSpacedWord(" NOT", "NOT");
    LexAppend(" NOT", [Word("NOT")], " IN (?)", OpTokens(In));
    assert " NOT" + " IN (?)" == " NOT IN (?)" && [Word("NOT")] + OpTokens(In) == OpTokens(NotIn);
  }

  lemma LexIsNull()
    ensures Lexes(" IS NULL", OpTokens(IsNull))
  {
    LexSpacedWord(" IS", "IS");
    LexSpacedWord(" NULL", "NULL");
    assert " IS" + " NULL" == " IS NULL" && [Word("IS")] + [Word("NULL")] == OpTokens(IsNull);
    LexAppend(" IS", [Word("IS")], " NULL", [Word("NULL")]);
  }

  lemma LexIsNotNull()
    ensures Lexes(" IS NOT NULL", OpTokens(IsNotNull))
  {
    LexSpacedWord(" IS", "IS");
    LexSpacedWord(" NOT", "NOT");
    LexSpacedWord(" NULL", "NULL");
    LexAppend(" IS", [Word("IS")], " NOT", [Word("NOT")]);
    LexAppend(" IS" + " NOT", [Word("IS")] + [Word("NOT")], " NULL", [Word("NULL")]);
    NotNullSpelling();
  }

  lemma NotNullSpelling()
    ensures " IS" + " NOT" + " NULL" == " IS NOT NULL"
    ensures [Word("IS")] + [Word("NOT")] + [Word("NULL")] == OpTokens(IsNotNull)
  {
  }

  lemma LexIn()
    ensures Lexes(" IN (?)", OpTokens(In))
  {
    LexList();
    LexSpacedWord(" IN", "IN");
    LexAppend(" IN", [Word("IN")], " (?)", [LParen, Mark, RParen]);
    assert " IN" + " (?)" == " IN (?)";
  }

  lemma LexLike(op: Op, keyword: string)
    requires (op == Like && keyword == "LIKE") || (op == ILike && keyword == "ILIKE")
    ensures Lexes(Suffix(op), OpTokens(op))
  {
    LexPattern(keyword);
    PatternSpelling();
  }

  lemma PatternSpelling()
    ensures " " + "LIKE" + " ? ESCAPE '!'" == Suffix(Like) && " " + "ILIKE" + " ? ESCAPE '!'" == Suffix(ILike)
  {
  }

  lemma LexPattern(keyword: string)
    requires IsWord(keyword)
    ensures Lexes(" " + keyword + " ? ESCAPE '!'", [Word(keyword), Mark, Word("ESCAPE"), Word("'!'")])
  {
    LexEscape();
    LexMark();
    LexAppend(" ?", [Mark], " ESCAPE '!'", [Word("ESCAPE"), Word("'!'")]);
    LexSpacedWord(" " + keyword, keyword);
    LexAppend(" " + keyword, [Word(keyword)], " ?" + " ESCAPE '!'", [Mark] + [Word("ESCAPE"), Word("'!'")]);
    assert " ?" + " ESCAPE '!'" == " ? ESCAPE '!'";
    assert [Word(keyword)] + ([Mark] + [Word("ESCAPE"), Word("'!'")])
        == [Word(keyword), Mark, Word("ESCAPE"), Word("'!'")];
  }

  lemma LexEscape()
    ensures Lexes(" ESCAPE '!'", [Word("ESCAPE"), Word("'!'")])
  {
    LexSpacedWord(" ESCAPE", "ESCAPE");
    LexSpacedWord(" '!'", "'!'");
    LexAppend(" ESCAPE", [Word("ESCAPE")], " '!'", [Word("'!'")]);
    assert " ESCAPE" + " '!'" == " ESCAPE '!'";
    assert [Word("ESCAPE")] + [Word("'!'")] == [Word("ESCAPE"), Word("'!'")];
  }

  lemma {:induction false} LexJoin(parts: seq<string>, tokens: seq<seq<Token>>, op: LogicOp)
    requires |parts| == |tokens| && forall i | 0 <= i < |parts| :: Lexes(parts[i], tokens[i])
    ensures Lexes(Join(parts, Separator(op)), JoinTokens(tokens, Keyword(op)))
    decreases |parts|
  {
    if parts == [] {
      forall rest | Delimited(rest) ensures LexesBefore("", [], rest) { assert "" + rest == rest; }
    } else if |parts| > 1 {
      var text, more := Join(parts[1..], Separator(op)), JoinTokens(tokens[1..], Keyword(op));
      LexJoin(parts[1..], tokens[1..], op);
      LexJoined(parts[0], tokens[0], Keyword(op), text, more);
    }
  }

  lemma LexJoined(first: string, t0: seq<Token>, keyword: string, text: string, more: seq<Token>)
    requires Lexes(first, t0) && Lexes(text, more) && IsWord(keyword)
    ensures Lexes(first + (" " + keyword + " ") + text, t0 + [Word(keyword)] + more)
  {
    LexSpaced(text, more);
    LexSpacedWord(" " + keyword, keyword);
    LexAppend(" " + keyword, [Word(keyword)], " " + text, more);
    LexAppend(first, t0, " " + keyword + (" " + text), [Word(keyword)] + more);
    assert first + (" " + keyword + (" " + text)) == first + (" " + keyword + " ") + text;
    Reassociate(t0, [Word(keyword)], more);
  }

  // ----- printing ---------------------------------------------------------

  /** Only a group with nothing but empty groups in it prints nothing. */
  lemma {:induction false} EmptyPrintsNothing(f: Filter)
    ensures Print(f) == "" <==> Empty(f)
    decreases f
  {
    if f.Group? { AllEmptyPrintsNothing(f.filters); }
  }

  lemma {:induction false} AllEmptyPrintsNothing(filters: seq<Filter>)
    ensures PrintAll(filters) == [] <==> AllEmpty(filters)
    decreases filters
  {
    if filters != [] {
      EmptyPrintsNothing(filters[0]);
      AllEmptyPrintsNothing(filters[1..]);
    }
  }

  lemma {:induction false} LexPrint(f: Filter)
    requires !Empty(f) && FieldsAreWords(f)
    ensures Lexes(Print(f), Tokens(f))
    decreases f
  {
    match f
    case Cond(field, op, _) =>
      LexSuffix(op);
      LexField(field);
      LexAppend(field, [Word(field)], Suffix(op), OpTokens(op));
    case Group(op, filters) =>
      LexPrintAll(filters);
      AllEmptyPrintsNothing(filters);
      LexJoin(PrintAll(filters), TokensAll(filters), op);
      LexGroup(Join(PrintAll(filters), Separator(op)), JoinTokens(TokensAll(filters), Keyword(op)));
  }

  lemma LexField(field: string)
    requires IsWord(field)
    ensures Lexes(field, [Word(field)])
  {
    forall rest | Delimited(rest) ensures LexesBefore(field, [Word(field)], rest) { LexWord(field, rest); }
  }

  lemma {:induction false} LexPrintAll(filters: seq<Filter>)
    requires forall f <- filters :: FieldsAreWords(f)
    ensures |PrintAll(filters)| == |TokensAll(filters)|
    ensures forall i | 0 <= i < |PrintAll(filters)| :: Lexes(PrintAll(filters)[i], TokensAll(filters)[i])
    decreases filters
  {
    if filters != [] {
      EmptyPrintsNothing(filters[0]);
      if !Empty(filters[0]) { LexPrint(filters[0]); }
      LexPrintAll(filters[1..]);
    }
  }

  // ----- parsing the tokens gives the tree --------------------------------

  predicate ParsesBefore(tokens: seq<Token>, e: Expr, rest: seq<Token>) { ParsePrim(tokens + rest) == Parsed(e, rest) }

  ghost predicate ParsesAs(tokens: seq<Token>, e: Expr) { forall rest :: ParsesBefore(tokens, e, rest) }

  lemma AndsEnd(first: seq<Token>, e: Expr, rest: seq<Token>)
    requires ParsesAs(first, e) && !StartsWith(rest, "AND")
    ensures ParseAnds(first + rest) == Parsed([e], rest)
  {
    assert ParsesBefore(first, e, rest);
  }

  lemma AndsCons(first: seq<Token>, e: Expr, tail: seq<Token>)
    requires ParsesAs(first, e) && ParseAnds(tail).Parsed?
    ensures ParseAnds(first + ([Word("AND")] + tail)) == Parsed([e] + ParseAnds(tail).value, ParseAnds(tail).rest)
  {
    var after := [Word("AND")] + tail;
    assert ParsesBefore(first, e, after);
    assert after[1..] == tail;
  }

  lemma OrsCons(first: seq<Token>, e: Expr, tail: seq<Token>)
    requires ParsesAs(first, e) && ParseOrs(tail).Parsed?
    ensures ParseOrs(first + ([Word("OR")] + tail)) == Parsed([e] + ParseOrs(tail).value, ParseOrs(tail).rest)
  {
    var after := [Word("OR")] + tail;
    AndsEnd(first, e, after);
    assert after[1..] == tail && MkAll([e]) == e;
  }

  lemma OpIsRead(op: Op, rest: seq<Token>)
    ensures ParseOp(OpTokens(op) + rest) == Some(op)
  {
    CandidateIsRight(op);
    var ts := OpTokens(op) + rest;
    assert ts[0] == OpTokens(op)[0] && ts[1] == OpTokens(op)[1] && OpTokens(op) <= ts;
  }

  lemma CandidateIsRight(op: Op)
    ensures |OpTokens(op)| >= 2 && Candidate(OpTokens(op)[0], OpTokens(op)[1]) == op
  {
  }

  lemma Reassociate3<T>(a: seq<T>, b: seq<T>, c: seq<T>, d: seq<T>)
    ensures a + b + c + d == a + (b + (c + d))
  {
  }

  lemma {:induction false} AndsParse(tokens: seq<seq<Token>>, es: seq<Expr>, rest: seq<Token>)
    requires |tokens| == |es| > 0 && forall i | 0 <= i < |es| :: ParsesAs(tokens[i], es[i])
    requires !StartsWith(rest, "AND")
    ensures ParseAnds(JoinTokens(tokens, "AND") + rest) == Parsed(es, rest)
    decreases |tokens|
  {
    if |tokens| == 1 {
      AndsEnd(tokens[0], es[0], rest);
      assert es == [es[0]];
    } else {
      AndsParse(tokens[1..], es[1..], rest);
      AndsCons(tokens[0], es[0], JoinTokens(tokens[1..], "AND") + rest);
      Reassociate3(tokens[0], [Word("AND")], JoinTokens(tokens[1..], "AND"), rest);
      assert es == [es[0]] + es[1..];
    }
  }

  lemma {:induction false} OrsParse(tokens: seq<seq<Token>>, es: seq<Expr>, rest: seq<Token>)
    requires |tokens| == |es| > 0 && forall i | 0 <= i < |es| :: ParsesAs(tokens[i], es[i])
    requires !StartsWith(rest, "AND") && !StartsWith(rest, "OR")
    ensures ParseOrs(JoinTokens(tokens, "OR") + rest) == Parsed(es, rest)
    decreases |tokens|
  {
    if |tokens| == 1 {
      AndsParse(tokens, es, rest);
      assert es == [es[0]];
    } else {
      OrsParse(tokens[1..], es[1..], rest);
      OrsCons(tokens[0], es[0], JoinTokens(tokens[1..], "OR") + rest);
      Reassociate3(tokens[0], [Word("OR")], JoinTokens(tokens[1..], "OR"), rest);
      assert es == [es[0]] + es[1..];
    }
  }

  function Mk(op: LogicOp, items: seq<Expr>): Expr { if op.Or? then MkAny(items) else MkAll(items) }

  lemma JoinParses(tokens: seq<seq<Token>>, es: seq<Expr>, op: LogicOp, rest: seq<Token>)
    requires |tokens| == |es| > 0 && forall i | 0 <= i < |es| :: ParsesAs(tokens[i], es[i])
    requires rest == [] || rest[0].RParen?
    ensures ParseOr(JoinTokens(tokens, Keyword(op)) + rest) == Parsed(Mk(op, es), rest)
  {
    if op.Or? { OrsParse(tokens, es, rest); } else { AndsParse(tokens, es, rest); }
  }

  lemma {:induction false} TokensParse(f: Filter)
    requires !Empty(f)
    ensures ParsesAs(Tokens(f), Norm(f))
    decreases f
  {
    forall rest
      ensures ParsesBefore(Tokens(f), Norm(f), rest)
    {
      match f
      case Cond(field, op, _) => TestParses(field, op, rest);
      case Group(op, filters) =>
        AllTokensParse(filters);
        JoinParses(TokensAll(filters), NormAll(filters), op, [RParen] + rest);
        GroupParses(JoinTokens(TokensAll(filters), Keyword(op)), Norm(f), rest);
    }
  }

  lemma TestParses(field: string, op: Op, rest: seq<Token>)
    ensures ParsesBefore([Word(field)] + OpTokens(op), Test(field, op), rest)
  {
    var ts := [Word(field)] + OpTokens(op) + rest;
    OpIsRead(op, rest);
    assert ts[1..] == OpTokens(op) + rest && ts[0] == Word(field);
    assert (OpTokens(op) + rest)[|OpTokens(op)|..] == rest;
  }

  lemma GroupParses(inner: seq<Token>, e: Expr, rest: seq<Token>)
    requires ParseOr(inner + ([RParen] + rest)) == Parsed(e, [RParen] + rest)
    ensures ParsesBefore([LParen] + inner + [RParen], e, rest)
  {
    var ts := [LParen] + inner + [RParen] + rest;
    assert ts[1..] == inner + ([RParen] + rest) && ts[0] == LParen;
    assert ([RParen] + rest)[1..] == rest;
  }

  lemma {:induction false} AllTokensParse(filters: seq<Filter>)
    ensures |TokensAll(filters)| == |NormAll(filters)|
    ensures NormAll(filters) == [] <==> AllEmpty(filters)
    ensures forall i | 0 <= i < |NormAll(filters)| :: ParsesAs(TokensAll(filters)[i], NormAll(filters)[i])
    decreases filters
  {
    if filters != [] {
      if !Empty(filters[0]) { TokensParse(filters[0]); }
      AllTokensParse(filters[1..]);
    }
  }

  // ----- the round trip ---------------------------------------------------

  /** The clause of a filter, read with AND binding tighter than OR, is the filter. */
  lemma PrintThenParse(f: Filter)
    requires !Empty(f) && FieldsAreWords(f)
    ensures Parse(Print(f)) == Some(Norm(f))
  {
    LexPrint(f);
    TokensParse(f);
    JoinParses([Tokens(f)], [Norm(f)], And, []);
    LexesWhole(Print(f), Tokens(f));
  }

  lemma LexesWhole(text: string, tokens: seq<Token>)
    requires Lexes(text, tokens)
    ensures Lex(text) == tokens + []
  {
    assert LexesBefore(text, tokens, "") && text + "" == text;
  }

  function WhereText(filters: seq<Filter>): string { Join(PrintAll(filters), Separator(And)) }

  /** So is the conjunction of the clauses of a list of filters. */
  lemma WhereThenParse(filters: seq<Filter>)
    requires !AllEmpty(filters) && forall f <- filters :: FieldsAreWords(f)
    ensures Parse(WhereText(filters)) == Some(MkAll(NormAll(filters)))
  {
    LexPrintAll(filters);
    LexJoin(PrintAll(filters), TokensAll(filters), And);
    AllTokensParse(filters);
    var text, tokens := WhereText(filters), JoinTokens(TokensAll(filters), "AND");
    LexesWhole(text, tokens);
    JoinParses(TokensAll(filters), NormAll(filters), And, []);
  }
}
