/** What the database makes of the text and arguments of a filter list, in the
    three-valued logic of section 8.12 of SQL-92, against what the filters mean. */
module FilterMeaning {
  import opened Prelude
  import L = Like
  import opened Filters
  import opened FilterParsing

  datatype Truth = Yes | No | Maybe

  function Both(a: Truth, b: Truth): Truth {
    if a.No? || b.No? then No else if a.Maybe? || b.Maybe? then Maybe else Yes
  }

  function Either(a: Truth, b: Truth): Truth {
    if a.Yes? || b.Yes? then Yes else if a.Maybe? || b.Maybe? then Maybe else No
  }

  function Combine(op: LogicOp, a: Truth, b: Truth): Truth { if op.Or? then Either(a, b) else Both(a, b) }

  /** The truth of no operands at all: of AND if nothing refutes, of OR if nothing supports. */
  function Unit(op: LogicOp): Truth { if op.Or? then No else Yes }

  function Holds(b: bool): Truth { if b then Yes else No }

  /** One row of a database: its column values, its reading of every comparison but
      LIKE, and the folding ILIKE applies to each character. */
  datatype Row = Row(column: string -> Value, compare: (Op, Value, Value) -> Truth, fold: char -> char)

  // ----- what the filters mean --------------------------------------------

  /** LIKE filters look for their value literally. */
  ghost function CondMeans(row: Row, field: string, op: Op, value: Value): Truth {
    var column := row.column(field);
    match op
    case IsNull => Holds(column.Null?)
    case IsNotNull => Holds(!column.Null?)
    case Like => if column.Null? then Maybe else Holds(L.Contains(Show(column), Show(value)))
    case ILike =>
      if column.Null? then Maybe
      else Holds(L.Contains(L.Fold(row.fold, Show(column)), L.Fold(row.fold, Show(value))))
    case _ => row.compare(op, column, value)
  }

  ghost function Means(row: Row, f: Filter): Truth
    decreases f
  {
    match f
    case Cond(field, op, value) => CondMeans(row, field, op, value)
    case Group(op, filters) => MeansAll(row, op, filters)
  }

  /** Groups with no condition in them say nothing. */
  ghost function MeansAll(row: Row, op: LogicOp, filters: seq<Filter>): Truth
    decreases filters
  {
    if filters == [] then Unit(op)
    else if Empty(filters[0]) then MeansAll(row, op, filters[1..])
    else Combine(op, Means(row, filters[0]), MeansAll(row, op, filters[1..]))
  }

  // ----- what the database computes ---------------------------------------

  /** A truth and the arguments not used yet, or a data exception. */
  datatype Result = Exception | Result(truth: Truth, left: seq<Value>)

  ghost function Pattern(row: Row, op: Op, column: Value, pattern: Value): Option<Truth> {
    if column.Null? || pattern.Null? then Some(Maybe)
    else
      var text, pat := Show(column), Show(pattern);
      var matched := if op.ILike? then L.Matches(L.Fold(row.fold, text), L.Fold(row.fold, pat)) else L.Matches(text, pat);
      if matched.None? then None else Some(Holds(matched.value))
  }

  /** Each placeholder takes the next argument. */
  ghost function Eval(row: Row, e: Expr, args: seq<Value>): Result
    decreases e
  {
    match e
    case Test(field, op) =>
      var column := row.column(field);
      if op.IsNull? then Result(Holds(column.Null?), args)
      else if op.IsNotNull? then Result(Holds(!column.Null?), args)
      else if args == [] then Exception
      else if op.Like? || op.ILike? then
        var truth := Pattern(row, op, column, args[0]);
        if truth.None? then Exception else Result(truth.value, args[1..])
      else Result(row.compare(op, column, args[0]), args[1..])
    case All(items) => EvalAll(row, And, items, args)
    case Any(items) => EvalAll(row, Or, items, args)
  }

  ghost function EvalAll(row: Row, op: LogicOp, items: seq<Expr>, args: seq<Value>): Result
    decreases items
  {
    if items == [] then Result(Unit(op), args)
    else
      var first := Eval(row, items[0], args);
      if first.Exception? then Exception
      else
        var others := EvalAll(row, op, items[1..], first.left);
        if others.Exception? then Exception else Result(Combine(op, first.truth, others.truth), others.left)
  }

  /** The truth of a WHERE clause for a row; every argument must have its placeholder. */
  ghost function Where(row: Row, text: string, args: seq<Value>): Option<Truth> {
    if text == "" then (if args == [] then Some(Yes) else None)
    else match Parse(text)
         case None => None
         case Some(e) =>
           var r := Eval(row, e, args);
           if r.Exception? || r.left != [] then None else Some(r.truth)
  }

  // ----- the two agree ----------------------------------------------------

  lemma PatternMeansContains(row: Row, op: Op, column: Value, value: Value)
    requires op.Like? || (op.ILike? && L.KeepsSpecials(row.fold))
    requires !column.Null?
    ensures var pattern := Text("%" + L.Escape(Show(value)) + "%");
            Pattern(row, op, column, pattern) == Some(Holds(
              if op.Like? then L.Contains(Show(column), Show(value))
              else L.Contains(L.Fold(row.fold, Show(column)), L.Fold(row.fold, Show(value)))))
  {
    var term, fold := Show(value), row.fold;
    if op.Like? {
      L.WrappedMatchesSubstrings(Show(column), term);
    } else {
      L.FoldCommutesWithEscape(fold, term);
      L.WrappedMatchesSubstrings(L.Fold(fold, Show(column)), L.Fold(fold, term));
      assert fold('%') == '%' by { assert L.Special('%'); }
      assert L.Fold(fold, "%" + L.Escape(term) + "%") == "%" + L.Fold(fold, L.Escape(term)) + "%";
    }
  }

  ghost predicate Computes(row: Row, e: Expr, args: seq<Value>, truth: Truth, more: seq<Value>) {
    Eval(row, e, args + more) == Result(truth, more)
  }

  lemma CondAgrees(row: Row, field: string, op: Op, value: Value, more: seq<Value>)
    requires L.KeepsSpecials(row.fold)
    ensures Computes(row, Test(field, op), CondArgs(op, value), CondMeans(row, field, op, value), more)
  {
    var args := CondArgs(op, value) + more;
    if op.IsNull? || op.IsNotNull? {
      assert args == more;
    } else {
      assert args[1..] == more;
      if (op.Like? || op.ILike?) && !row.column(field).Null? {
        PatternMeansContains(row, op, row.column(field), value);
      }
    }
  }

  lemma Singleton(row: Row, op: LogicOp, items: seq<Expr>, args: seq<Value>)
    ensures Eval(row, Mk(op, items), args) == EvalAll(row, op, items, args)
  {
    if |items| == 1 {
      assert items[1..] == [];
      assert Unit(op) == if op.Or? then No else Yes;
    }
    if !op.Or? { AndOrUnknown(row, op, items, args); }
  }

  /** An unknown group operator is evaluated as AND. */
  lemma {:induction false} AndOrUnknown(row: Row, op: LogicOp, items: seq<Expr>, args: seq<Value>)
    requires !op.Or?
    ensures EvalAll(row, op, items, args) == EvalAll(row, And, items, args)
    decreases |items|
  {
    if items != [] {
      var first := Eval(row, items[0], args);
      if first.Result? { AndOrUnknown(row, op, items[1..], first.left); }
    }
  }

  /** A filter's clause evaluates to the filter's meaning and uses up exactly its arguments. */
  lemma {:induction false} FilterAgrees(row: Row, f: Filter, more: seq<Value>)
    requires !Empty(f) && L.KeepsSpecials(row.fold)
    ensures Computes(row, Norm(f), Args(f), Means(row, f), more)
    decreases f
  {
    match f
    case Cond(field, op, value) => CondAgrees(row, field, op, value, more);
    case Group(op, filters) =>
      AllAgree(row, op, filters, more);
      Singleton(row, op, NormAll(filters), ArgsAll(filters) + more);
  }

  ghost predicate AllCompute(row: Row, op: LogicOp, filters: seq<Filter>, more: seq<Value>) {
    EvalAll(row, op, NormAll(filters), ArgsAll(filters) + more) == Result(MeansAll(row, op, filters), more)
  }

  lemma {:induction false} AllAgree(row: Row, op: LogicOp, filters: seq<Filter>, more: seq<Value>)
    requires L.KeepsSpecials(row.fold)
    ensures AllCompute(row, op, filters, more)
    decreases filters
  {
    if filters == [] {
      assert ArgsAll(filters) + more == more;
    } else {
      AllAgree(row, op, filters[1..], more);
      EmptyPrintsNothing(filters[0]);
      if !Empty(filters[0]) {
        FilterAgrees(row, filters[0], ArgsAll(filters[1..]) + more);
        OneMore(row, op, filters, more);
      } else {
        assert ShownArgs(filters[0]) == [] && [] + ArgsAll(filters[1..]) == ArgsAll(filters[1..]);
        assert [] + NormAll(filters[1..]) == NormAll(filters[1..]);
      }
    }
  }

  lemma OneMore(row: Row, op: LogicOp, filters: seq<Filter>, more: seq<Value>)
    requires filters != [] && !Empty(filters[0]) && Print(filters[0]) != ""
    requires Computes(row, Norm(filters[0]), Args(filters[0]), Means(row, filters[0]), ArgsAll(filters[1..]) + more)
    requires AllCompute(row, op, filters[1..], more)
    ensures AllCompute(row, op, filters, more)
  {
    Heads(filters, more);
    EvalAllOf(row, op, Norm(filters[0]), NormAll(filters[1..]), ArgsAll(filters) + more,
              Means(row, filters[0]), ArgsAll(filters[1..]) + more, MeansAll(row, op, filters[1..]), more);
  }

  lemma Heads(filters: seq<Filter>, more: seq<Value>)
    requires filters != [] && !Empty(filters[0]) && Print(filters[0]) != ""
    ensures NormAll(filters) == [Norm(filters[0])] + NormAll(filters[1..])
    ensures ArgsAll(filters) + more == Args(filters[0]) + (ArgsAll(filters[1..]) + more)
  {
    Reassociate(Args(filters[0]), ArgsAll(filters[1..]), more);
  }

  lemma EvalAllOf(row: Row, op: LogicOp, e: Expr, others: seq<Expr>, args: seq<Value>,
                  truth: Truth, rest: seq<Value>, tail: Truth, more: seq<Value>)
    requires Eval(row, e, args) == Result(truth, rest) && EvalAll(row, op, others, rest) == Result(tail, more)
    ensures EvalAll(row, op, [e] + others, args) == Result(Combine(op, truth, tail), more)
  {
    assert ([e] + others)[1..] == others;
  }

  /** For every row, the WHERE clause built from the filters is true, false or unknown
      exactly as the conjunction of the filters is, and never a data exception. */
  lemma WhereMeansTheFilters(row: Row, filters: seq<Filter>)
    requires (forall f <- filters :: FieldsAreWords(f)) && L.KeepsSpecials(row.fold)
    ensures Where(row, WhereText(filters), ArgsAll(filters)) == Some(MeansAll(row, And, filters))
  {
    AllAgree(row, And, filters, []);
    assert ArgsAll(filters) + [] == ArgsAll(filters);
    AllEmptyPrintsNothing(filters);
    if AllEmpty(filters) {
      NothingToSay(row, filters);
    } else {
      WhereThenParse(filters);
      assert WhereText(filters) != "" by { assert Parse("") == None by { assert Lex("") == []; } }
      Singleton(row, And, NormAll(filters), ArgsAll(filters));
    }
  }

  lemma {:induction false} NothingToSay(row: Row, filters: seq<Filter>)
    requires AllEmpty(filters)
    ensures MeansAll(row, And, filters) == Yes && ArgsAll(filters) == []
    decreases |filters|
  {
    if filters != [] {
      EmptyPrintsNothing(filters[0]);
      NothingToSay(row, filters[1..]);
    }
  }
}
