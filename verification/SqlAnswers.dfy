/** What compiled predicates find: every comparison of a discover predicate, read off the
    column values of a row, against the SQL that it is compiled to. */
module SqlAnswers {
  import opened LikePatterns
  import opened Options
  import opened Predicates
  import opened SqlAssemble
  import opened SqlCompile

  /** The value of each column expression in a row; none for NULL. */
  type Values = string -> Option<string>

  /** The order in which the database sorts values. */
  type Order = (string, string) -> bool

  function Answer(value: Option<string>, holds: string -> bool): Truth {
    match value
    case None => Unknown
    case Some(s) => if holds(s) then True else False
  }

  // ----- the database

  /** The meaning of an SQL operator on a value and the bound arguments. */
  predicate SqlHolds(op: SqlOp, s: string, bound: seq<string>, before: Order) {
    match op
    case Equal => |bound| == 1 && s == bound[0]
    case Unequal => |bound| == 1 && s != bound[0]
    case Matches => |bound| == 1 && Like(bound[0], s)
    case Greater => |bound| == 1 && before(bound[0], s)
    case GreaterEqual => |bound| == 1 && !before(s, bound[0])
    case Smaller => |bound| == 1 && before(s, bound[0])
    case SmallerEqual => |bound| == 1 && !before(bound[0], s)
    case Blank => s == ""
    case NotBlank => s != ""
    case OneOf => s in bound
  }

  ghost predicate IsSql(db: Db, values: Values, before: Order) {
    forall a :: db(a) == Answer(values(a.expr), s => SqlHolds(a.op, s, a.bound, before))
  }

  // ----- the predicate

  const OPERATORS := {"=", "!=", "contains", "prefix", ">", ">=", "<", "<=", "is_null", "not_null", "in"}

  predicate Occurs(v: string, s: string) {
    exists i :: 0 <= i <= |s| && Starts(s[i..], v)
  }

  /** What each operator promises of a field's value. */
  predicate Promise(c: Comparison, s: string, before: Order) {
    match c.op
    case "=" => s == c.value
    case "!=" => s != c.value
    case "contains" => Occurs(c.value, s)
    case "prefix" => Starts(s, c.value)
    case ">" => before(c.value, s)
    case ">=" => !before(s, c.value)
    case "<" => before(s, c.value)
    case "<=" => !before(c.value, s)
    case "is_null" => s == ""
    case "not_null" => s != ""
    case "in" => s in c.values
    case _ => false
  }

  /** The row as a user of the predicate language sees it: an override speaks for itself, any
      other comparison is about the value of its field. */
  function Seen(fields: Dialect, db: Db, values: Values, before: Order): Row {
    (c: Comparison) =>
      match fields.hook(c)
      case Handled(atom) => db(atom)
      case Rejected => Unknown
      case Unhandled =>
        if c.field in fields.columns && c.op in OPERATORS
        then Answer(values(fields.columns[c.field]), s => Promise(c, s, before))
        else Unknown
  }

  lemma PromiseKept(c: Comparison, s: string, before: Order)
    requires c.op in OPERATORS
    ensures SqlHolds(SqlOpOf(c.op), s, Bound(c), before) == Promise(c, s, before)
  {
    if c.op == "contains" {
      ContainsMeans(c.value, s);
    } else if c.op == "prefix" {
      PrefixMeans(c.value, s);
    }
  }

  lemma SeenIsRow(fields: Dialect, db: Db, values: Values, before: Order, c: Comparison)
    requires IsSql(db, values, before)
    ensures RowOf(fields, db)(c) == Seen(fields, db, values, before)(c)
  {
    match fields.hook(c)
    case Handled(atom) => assert Compiles(c, fields) && AtomOf(c, fields) == atom;
    case Rejected => assert !Compiles(c, fields);
    case Unhandled =>
      if c.field in fields.columns && c.op in OPERATORS {
        var value, a := values(fields.columns[c.field]), AtomOf(c, fields);
        assert RowOf(fields, db)(c) == db(a) == Answer(value, s => SqlHolds(a.op, s, a.bound, before));
        if value.Some? {
          PromiseKept(c, value.value, before);
        }
      } else {
        assert !Compiles(c, fields);
      }
  }

  lemma SeenMeans(p: Predicate, fields: Dialect, db: Db, values: Values, before: Order)
    requires IsSql(db, values, before)
    ensures Eval(p, RowOf(fields, db)) == Eval(p, Seen(fields, db, values, before))
  {
    forall c | Mentions(p, c)
      ensures RowOf(fields, db)(c) == Seen(fields, db, values, before)(c)
    {
      SeenIsRow(fields, db, values, before, c);
    }
    EvalAgrees(p, RowOf(fields, db), Seen(fields, db, values, before));
  }

  /** The compiled text, parsed and evaluated with its arguments by an SQL database, means the
      predicate read off the column values, for every operator and any nesting. */
  lemma CompiledTextMeans(p: Predicate, fields: Dialect, bound: nat, args: seq<string>, db: Db, values: Values,
                          before: Order, ok: Comparison -> bool)
    requires IsNormal(p) && Valid(p, ok) && Compile(p, fields, bound).Some? && IsSql(db, values, before)
    requires Holds(args, bound, Compile(p, fields, bound).value.args)
    ensures var r := ParseOr(TextOf(Compile(p, fields, bound).value));
            r.Parsed? && r.rest == [] && EvalSql(r.e, args, db) == Eval(p, Seen(fields, db, values, before))
  {
    CompilerPreservesMeaning(p, fields, bound, args, db, ok);
    SeenMeans(p, fields, db, values, before);
  }

  /** The comparisons a backend accepts. */
  function Accepts(fields: Dialect): Comparison -> bool {
    c =>
      match fields.hook(c)
      case Handled(_) => true
      case Rejected => false
      case Unhandled => c.field in fields.columns && c.op in OPERATORS
  }

  lemma AcceptsIsKnown(p: Predicate, fields: Dialect)
    ensures Valid(p, Accepts(fields)) <==> Valid(p, Known(fields))
  {
    forall c
      ensures Accepts(fields)(c) == Known(fields)(c)
    {
    }
    ValidAgrees(p, Accepts(fields), Known(fields));
  }

  /** A valid predicate compiles exactly when the backend accepts all its comparisons. */
  lemma CompilesWhenAccepted(p: Predicate, fields: Dialect, bound: nat, ok: Comparison -> bool)
    requires IsNormal(p) && Valid(p, ok)
    ensures Compile(p, fields, bound).Some? <==> Valid(p, Accepts(fields))
  {
    CompilesIff(p, fields, bound, ok);
    AcceptsIsKnown(p, fields);
  }

  /** The assembled statement admits a row exactly as far as scope, predicate and time range do,
      the predicate read off the column values. */
  lemma StatementMeans(q: Query, fields: Dialect, db: Db, values: Values, before: Order, ok: Comparison -> bool)
    requires q.base != [] && Accepted(q.where, ok) && Assemble(q, fields).Some? && !TopLevelOr(q.where)
    requires IsSql(db, values, before)
    ensures var s := Assemble(q, fields).value;
            Meaning(s.text, s.args, db) ==
            Some(Both(AllOf(q.base, db),
                      Both(EvalWhere(q.where, Seen(fields, db, values, before)), AllOf(q.time, db))))
  {
    AssembledMeans(q, fields, db, ok);
    if q.where.Some? {
      SeenMeans(q.where.value, fields, db, values, before);
    }
  }
}
