/** LIKE as in section 8.5 of SQL-92, and the escaping of pagination/helper.go
    that makes a term literal. */
module Like {
  import opened Prelude

  const ESCAPE_CHAR: char := '!'

  predicate Special(c: char) { c == ESCAPE_CHAR || c == '%' || c == '_' }

  /** `EscapeLike` of a term already rendered as text. */
  function Escape(term: string): string {
    if term == "" then "" else EscapeOne(term[0]) + Escape(term[1..])
  }

  function EscapeOne(c: char): string { if Special(c) then [ESCAPE_CHAR, c] else [c] }

  // ----- patterns ---------------------------------------------------------

  datatype Item = AnyString | AnyChar | Literal(c: char)

  /** The items of a pattern with escape character '!': it must be followed by a
      special character, or the pattern is a data exception (`None`). */
  function Items(pattern: string): Option<seq<Item>> {
    if pattern == "" then Some([])
    else if pattern[0] == '!' then
      if |pattern| > 1 && (pattern[1] == '!' || pattern[1] == '%' || pattern[1] == '_')
      then Then(Literal(pattern[1]), Items(pattern[2..])) else None
    else
      Then(if pattern[0] == '%' then AnyString else if pattern[0] == '_' then AnyChar else Literal(pattern[0]),
           Items(pattern[1..]))
  }

  function Then(item: Item, rest: Option<seq<Item>>): Option<seq<Item>> {
    if rest.Some? then Some([item] + rest.value) else None
  }

  /** The value splits into pieces, one for each item. */
  ghost predicate Splits(value: string, items: seq<Item>)
    decreases |items|
  {
    if items == [] then value == ""
    else match items[0]
         case Literal(c) => value != "" && value[0] == c && Splits(value[1..], items[1..])
         case AnyChar => value != "" && Splits(value[1..], items[1..])
         case AnyString => exists i | 0 <= i <= |value| :: Splits(value[i..], items[1..])
  }

  ghost function Matches(value: string, pattern: string): Option<bool> {
    if Items(pattern).Some? then Some(Splits(value, Items(pattern).value)) else None
  }

  ghost predicate Contains(value: string, term: string) {
    exists i | 0 <= i <= |value| :: term <= value[i..]
  }

  // ----- escaping is literal ----------------------------------------------

  function Literals(term: string): seq<Item> { seq(|term|, i requires 0 <= i < |term| => Literal(term[i])) }

  lemma {:induction false} ItemsOfEscaped(term: string, rest: string)
    requires Items(rest).Some?
    ensures Items(Escape(term) + rest) == Some(Literals(term) + Items(rest).value)
    decreases |term|
  {
    if term == "" {
      assert Escape(term) + rest == rest && Literals(term) + Items(rest).value == Items(rest).value;
    } else {
      ItemsOfEscaped(term[1..], rest);
      EscapedHead(term[0], Escape(term[1..]) + rest);
      assert Escape(term) + rest == EscapeOne(term[0]) + (Escape(term[1..]) + rest);
      assert Literals(term) == [Literal(term[0])] + Literals(term[1..]);
      assert [Literal(term[0])] + (Literals(term[1..]) + Items(rest).value) == Literals(term) + Items(rest).value;
    }
  }

  lemma EscapedHead(c: char, tail: string)
    requires Items(tail).Some?
    ensures Items(EscapeOne(c) + tail) == Some([Literal(c)] + Items(tail).value)
  {
    var whole := EscapeOne(c) + tail;
    if Special(c) {
      assert whole[2..] == tail && whole[0] == ESCAPE_CHAR && whole[1] == c;
    } else {
      assert whole[1..] == tail && whole[0] == c;
    }
  }

  /** Literal items take exactly the term off the front. */
  lemma {:induction false} LiteralsTakeThePrefix(value: string, term: string, rest: seq<Item>)
    ensures Splits(value, Literals(term) + rest) <==> term <= value && Splits(value[|term|..], rest)
    decreases |term|
  {
    if term == "" {
      assert Literals(term) + rest == rest && value[0..] == value;
    } else {
      var items := Literals(term) + rest;
      assert items[1..] == Literals(term[1..]) + rest && items[0] == Literal(term[0]);
      if value != "" && value[0] == term[0] {
        LiteralsTakeThePrefix(value[1..], term[1..], rest);
        assert term <= value <==> term[1..] <= value[1..];
        if term <= value { assert value[1..][|term[1..]|..] == value[|term|..]; }
      }
    }
  }

  /** An escaped term matches itself and nothing else. */
  lemma EscapedMatchesOnlyItself(value: string, term: string)
    ensures Matches(value, Escape(term)) == Some(value == term)
  {
    ItemsOfEscaped(term, "");
    assert Escape(term) + "" == Escape(term) && Literals(term) + [] == Literals(term);
    LiteralsTakeThePrefix(value, term, []);
  }

  /** Between two wildcards it matches exactly the values that contain the term. */
  lemma WrappedMatchesSubstrings(value: string, term: string)
    ensures Matches(value, "%" + Escape(term) + "%") == Some(Contains(value, term))
  {
    var pattern := "%" + Escape(term) + "%";
    assert pattern[1..] == Escape(term) + "%" && pattern[0] == '%';
    assert Items("%") == Some([AnyString]) by {
      assert "%"[1..] == "" && Items("") == Some([]) && [AnyString] + [] == [AnyString];
    }
    ItemsOfEscaped(term, "%");
    var inner := Literals(term) + [AnyString];
    assert Items(pattern) == Some([AnyString] + inner);
    assert ([AnyString] + inner)[1..] == inner;
    forall i | 0 <= i <= |value|
      ensures Splits(value[i..], inner) <==> term <= value[i..]
    {
      LiteralsTakeThePrefix(value[i..], term, [AnyString]);
      if term <= value[i..] { AnyStringMatches(value[i..][|term|..]); }
    }
  }

  lemma AnyStringMatches(value: string)
    ensures Splits(value, [AnyString])
  {
    assert [AnyString][1..] == [] && value[|value|..] == "";
    assert Splits(value[|value|..], [AnyString][1..]);
  }

  // ----- per-character folding --------------------------------------------

  function Fold(fold: char -> char, s: string): string { seq(|s|, i requires 0 <= i < |s| => fold(s[i])) }

  /** A case folding that neither moves nor makes special characters. */
  ghost predicate KeepsSpecials(fold: char -> char) {
    forall c :: (Special(c) ==> fold(c) == c) && (Special(fold(c)) ==> Special(c))
  }

  lemma {:induction false} FoldCommutesWithEscape(fold: char -> char, term: string)
    requires KeepsSpecials(fold)
    ensures Fold(fold, Escape(term)) == Escape(Fold(fold, term))
    decreases |term|
  {
    if term != "" {
      FoldCommutesWithEscape(fold, term[1..]);
      var folded := Fold(fold, term);
      assert folded[1..] == Fold(fold, term[1..]) && folded[0] == fold(term[0]);
      assert Fold(fold, EscapeOne(term[0])) == EscapeOne(fold(term[0]));
      assert Fold(fold, EscapeOne(term[0]) + Escape(term[1..]))
          == Fold(fold, EscapeOne(term[0])) + Fold(fold, Escape(term[1..]));
    }
  }
}
