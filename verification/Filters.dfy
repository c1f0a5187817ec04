/** Filter trees and the SQL text built from them: pagination/filter.go and
    pagination/gorm_scope.go. */
module Filters {
  import opened Prelude
  import Like

  /** A bound value: NULL, a string, or anything else with its `%v` rendering. */
  datatype Value = Null | Text(text: string) | Other(id: int, shown: string)

  datatype Op = Eq | Neq | Gt | Gte | Lt | Lte | Like | ILike | In | NotIn | IsNull | IsNotNull

  /** `LogicOp` is a string in Go; only "OR" means OR. */
  datatype LogicOp = And | Or | Unknown(text: string)

  datatype Filter =
    | Cond(field: string, op: Op, value: Value)
    | Group(logic: LogicOp, filters: seq<Filter>)

  function OpText(op: Op): string {
    match op
    case Eq => "="
    case Neq => "<>"
    case Gt => ">"
    case Gte => ">="
    case Lt => "<"
    case Lte => "<="
    case Like => "LIKE"
    case ILike => "ILIKE"
    case In => "IN"
    case NotIn => "NOT IN"
    case IsNull => "IS NULL"
    case IsNotNull => "IS NOT NULL"
  }

  function Show(v: Value): string {
    match v
    case Null => "<nil>"
    case Text(s) => s
    case Other(_, shown) => shown
  }

  /** What follows the field name. */
  function Suffix(op: Op): string {
    match op
    case IsNull => " IS NULL"
    case IsNotNull => " IS NOT NULL"
    case In => " IN (?)"
    case NotIn => " NOT IN (?)"
    case Like => " LIKE ? ESCAPE '!'"
    case ILike => " ILIKE ? ESCAPE '!'"
    case _ => " " + OpText(op) + " ?"
  }

  function CondArgs(op: Op, value: Value): seq<Value> {
    match op
    case IsNull => []
    case IsNotNull => []
    case Like => [Text("%" + Like.Escape(Show(value)) + "%")]
    case ILike => [Text("%" + Like.Escape(Show(value)) + "%")]
    case _ => [value]
  }

  function Join(parts: seq<string>, separator: string): string {
    if parts == [] then ""
    else if |parts| == 1 then parts[0]
    else parts[0] + separator + Join(parts[1..], separator)
  }

  function Keyword(op: LogicOp): string { if op.Or? then "OR" else "AND" }

  function Separator(op: LogicOp): string { " " + Keyword(op) + " " }

  /** The clause of a filter; "" when every group in it is empty. */
  function Print(f: Filter): string
    decreases f, 0
  {
    match f
    case Cond(field, op, _) => field + Suffix(op)
    case Group(op, filters) =>
      var parts := PrintAll(filters);
      if parts == [] then "" else "(" + Join(parts, Separator(op)) + ")"
  }

  /** A clause that is "" is left out. */
  function Shown(f: Filter): seq<string>
    decreases f, 1
  {
    if Print(f) == "" then [] else [Print(f)]
  }

  function PrintAll(filters: seq<Filter>): seq<string>
    decreases filters, 0
  {
    if filters == [] then [] else Shown(filters[0]) + PrintAll(filters[1..])
  }

  function Args(f: Filter): seq<Value>
    decreases f, 0
  {
    match f
    case Cond(_, op, value) => CondArgs(op, value)
    case Group(_, filters) => ArgsAll(filters)
  }

  /** So are its arguments. */
  function ShownArgs(f: Filter): seq<Value>
    decreases f, 1
  {
    if Print(f) == "" then [] else Args(f)
  }

  function ArgsAll(filters: seq<Filter>): seq<Value>
    decreases filters, 0
  {
    if filters == [] then [] else ShownArgs(filters[0]) + ArgsAll(filters[1..])
  }

  // ----- the builder as it runs -------------------------------------------

  lemma {:induction false} PrintAllSnoc(filters: seq<Filter>, f: Filter)
    ensures PrintAll(filters + [f]) == PrintAll(filters) + Shown(f)
    decreases |filters|
  {
    if filters == [] {
      assert filters + [f] == [f] && PrintAll([f]) == Shown(f) + [] == [] + Shown(f);
    } else {
      assert (filters + [f])[1..] == filters[1..] + [f];
      PrintAllSnoc(filters[1..], f);
      Reassociate(Shown(filters[0]), PrintAll(filters[1..]), Shown(f));
    }
  }

  lemma {:induction false} ArgsAllSnoc(filters: seq<Filter>, f: Filter)
    ensures ArgsAll(filters + [f]) == ArgsAll(filters) + ShownArgs(f)
    decreases |filters|
  {
    if filters == [] {
      assert filters + [f] == [f] && ArgsAll([f]) == ShownArgs(f) + [] == [] + ShownArgs(f);
    } else {
      assert (filters + [f])[1..] == filters[1..] + [f];
      ArgsAllSnoc(filters[1..], f);
      Reassociate(ShownArgs(filters[0]), ArgsAll(filters[1..]), ShownArgs(f));
    }
  }

  lemma Reassociate<T>(a: seq<T>, b: seq<T>, c: seq<T>)
    ensures a + b + c == a + (b + c)
  {
  }

  /** The placeholders and their arguments; a LIKE value is rendered, escaped and wrapped. */
  method FilterExpr(f: Filter) returns (expr: string, args: seq<Value>)
    ensures expr == Print(f) && (expr != "" ==> args == Args(f))
    ensures f.Cond? ==> expr == f.field + match f.op
      case Eq => " = ?"
      case Neq => " <> ?"
      case Gt => " > ?"
      case Gte => " >= ?"
      case Lt => " < ?"
      case Lte => " <= ?"
      case Like => " LIKE ? ESCAPE '!'"
      case ILike => " ILIKE ? ESCAPE '!'"
      case In => " IN (?)"
      case NotIn => " NOT IN (?)"
      case IsNull => " IS NULL"
      case IsNotNull => " IS NOT NULL"
    ensures f.Cond? ==> args == match f.op
      case IsNull | IsNotNull => []
      case Like | ILike =>
        var term := match f.value case Null => "<nil>" case Text(text) => text case Other(_, shown) => shown;
        [Text("%" + Like.Escape(term) + "%")]
      case _ => [f.value]
    decreases f, 1
  {
    if f.Group? {
      expr, args := GroupExpr(f);
      return;
    }
    match f.op {
      case IsNull => return f.field + " IS NULL", [];
      case IsNotNull => return f.field + " IS NOT NULL", [];
      case In => return f.field + " IN (?)", [f.value];
      case NotIn => return f.field + " NOT IN (?)", [f.value];
      case Like => return f.field + " LIKE ? ESCAPE '!'", [Text("%" + Like.Escape(Show(f.value)) + "%")];
      case ILike => return f.field + " ILIKE ? ESCAPE '!'", [Text("%" + Like.Escape(Show(f.value)) + "%")];
      case _ => return f.field + (" " + OpText(f.op) + " ?"), [f.value];
    }
  }

  method GroupExpr(g: Filter) returns (expr: string, args: seq<Value>)
    requires g.Group?
    ensures expr == Print(g) && (expr != "" ==> args == Args(g))
    decreases g, 0
  {
    var exprs: seq<string> := [];
    args := [];
    for i := 0 to |g.filters|
      invariant exprs == PrintAll(g.filters[..i]) && args == ArgsAll(g.filters[..i])
    {
      PrintAllSnoc(g.filters[..i], g.filters[i]);
      ArgsAllSnoc(g.filters[..i], g.filters[i]);
      assert g.filters[..i + 1] == g.filters[..i] + [g.filters[i]];
      var e, more := FilterExpr(g.filters[i]);
      if e != "" {
        exprs := exprs + [e];
        args := args + more;
      }
    }
    assert g.filters[..|g.filters|] == g.filters;
    if exprs == [] { return "", []; }
    var op := g.logic;
    if op != Or { op := And; }
    expr := "(" + Join(exprs, " " + Keyword(op) + " ") + ")";
  }

  /** Each clause becomes one `Where`, which the database layer joins with AND. */
  method ApplyFilters(filters: seq<Filter>) returns (clauses: seq<string>, args: seq<Value>)
    ensures clauses == PrintAll(filters) && args == ArgsAll(filters)
  {
    clauses, args := [], [];
    for i := 0 to |filters|
      invariant clauses == PrintAll(filters[..i]) && args == ArgsAll(filters[..i])
    {
      PrintAllSnoc(filters[..i], filters[i]);
      ArgsAllSnoc(filters[..i], filters[i]);
      assert filters[..i + 1] == filters[..i] + [filters[i]];
      var e, more := FilterExpr(filters[i]);
      if e != "" {
        clauses := clauses + [e];
        args := args + more;
      }
    }
    assert filters[..|filters|] == filters;
  }
}
