/** Discover predicates and their meaning in SQL's three-valued logic, and the dashboard
    filters added to them (internal/analyticsreport/runner.go). */
module Predicates {
  import opened Options
  import opened Text

  /** `op` is "and", "or", "not" or a comparison, in any letter case. */
  datatype Predicate = Predicate(op: string, args: seq<Predicate>, field: string, value: string, values: seq<string>)

  datatype Kind = And | Or | Not | Compare

  function OpName(op: string): string {
    ToLower(TrimSpace(op))
  }

  function KindNamed(name: string): Kind {
    if name == "and" then And else if name == "or" then Or else if name == "not" then Not else Compare
  }

  function KindOf(op: string): Kind {
    KindNamed(OpName(op))
  }

  // ----- three-valued logic

  datatype Truth = False | Unknown | True

  function Both(a: Truth, b: Truth): Truth {
    if a == False || b == False then False else if a == Unknown || b == Unknown then Unknown else True
  }

  function Negate(a: Truth): Truth {
    match a
    case True => False
    case False => True
    case Unknown => Unknown
  }

  function Either(a: Truth, b: Truth): Truth {
    Negate(Both(Negate(a), Negate(b)))
  }

  /** A comparison as normalised before it is compiled. */
  datatype Comparison = Comparison(op: string, field: string, value: string, values: seq<string>)

  function ComparisonOf(p: Predicate): Comparison {
    Comparison(OpName(p.op), ToLower(TrimSpace(p.field)), TrimSpace(p.value),
               seq(|p.values|, i requires 0 <= i < |p.values| => TrimSpace(p.values[i])))
  }

  /** What a row answers to each comparison. */
  type Row = Comparison -> Truth

  function Eval(p: Predicate, row: Row): Truth
    decreases p, 1
  {
    match KindOf(p.op)
    case And => EvalAll(p.args, row)
    case Or => EvalAny(p.args, row)
    case Not => if |p.args| == 1 then Negate(Eval(p.args[0], row)) else Unknown
    case Compare => row(ComparisonOf(p))
  }

  function EvalAll(args: seq<Predicate>, row: Row): Truth
    decreases args, 0
  {
    if args == [] then True else Both(EvalAll(args[..|args| - 1], row), Eval(args[|args| - 1], row))
  }

  function EvalAny(args: seq<Predicate>, row: Row): Truth
    decreases args, 0
  {
    if args == [] then False else Either(EvalAny(args[..|args| - 1], row), Eval(args[|args| - 1], row))
  }

  /** A missing predicate admits every row. */
  function EvalWhere(where: Option<Predicate>, row: Row): Truth {
    if where.None? then True else Eval(where.value, row)
  }

  /** Kleene's tables: a conjunction is true when both are and false when one is, a
      disjunction the other way round, and negation swaps true and false. */
  lemma TruthTables(a: Truth, b: Truth)
    ensures (Both(a, b) == True <==> a == True && b == True) && (Both(a, b) == False <==> a == False || b == False)
    ensures (Either(a, b) == True <==> a == True || b == True) && (Either(a, b) == False <==> a == False && b == False)
    ensures (Negate(a) == True <==> a == False) && (Negate(a) == False <==> a == True)
  {
  }

  lemma TwoArgs(p: Predicate, q: Predicate, row: Row)
    ensures EvalAll([p, q], row) == Both(Eval(p, row), Eval(q, row))
    ensures EvalAny([p, q], row) == Either(Eval(p, row), Eval(q, row))
  {
    assert [p, q][..1] == [p] && [p][..0] == [];
    assert EvalAll([], row) == True && EvalAny([], row) == False;
    assert EvalAll([p], row) == Both(True, Eval(p, row)) && EvalAny([p], row) == Either(False, Eval(p, row));
    BothLaws(Eval(p, row), True, True);
  }

  /** The connectives, in any letter case and with blanks around them. */
  lemma ConnectivesMean(op: string, p: Predicate, q: Predicate, row: Row)
    ensures EqualFold(TrimSpace(op), "and") ==>
              Eval(Predicate(op, [p, q], "", "", []), row) == Both(Eval(p, row), Eval(q, row))
    ensures EqualFold(TrimSpace(op), "or") ==>
              Eval(Predicate(op, [p, q], "", "", []), row) == Either(Eval(p, row), Eval(q, row))
    ensures EqualFold(TrimSpace(op), "not") ==> Eval(Predicate(op, [p], "", "", []), row) == Negate(Eval(p, row))
  {
    LowerFixed("and");
    LowerFixed("or");
    LowerFixed("not");
    BothLaws(Eval(p, row), True, True);
    TwoArgs(p, q, row);
  }

  // ----- what a predicate depends on

  /** The comparison occurs in the predicate. */
  predicate Mentions(p: Predicate, c: Comparison)
    decreases p, 1
  {
    if KindOf(p.op) == Compare then ComparisonOf(p) == c else MentionsAny(p.args, c)
  }

  predicate MentionsAny(args: seq<Predicate>, c: Comparison)
    decreases args, 0
  {
    args != [] && (MentionsAny(args[..|args| - 1], c) || Mentions(args[|args| - 1], c))
  }

  /** Rows that agree on the comparisons of a predicate give it the same meaning. */
  lemma {:induction false} EvalAgrees(p: Predicate, r1: Row, r2: Row)
    requires forall c :: Mentions(p, c) ==> r1(c) == r2(c)
    ensures Eval(p, r1) == Eval(p, r2)
    decreases p, 1
  {
    if KindOf(p.op) == Compare {
      assert Mentions(p, ComparisonOf(p));
    } else {
      forall c | MentionsAny(p.args, c)
        ensures r1(c) == r2(c)
      {
        assert Mentions(p, c);
      }
      EvalArgsAgree(p.args, r1, r2);
      if |p.args| == 1 {
        assert p.args[..0] == [];
        forall c | Mentions(p.args[0], c)
          ensures r1(c) == r2(c)
        {
          assert MentionsAny(p.args, c);
        }
        EvalAgrees(p.args[0], r1, r2);
      }
    }
  }

  lemma {:induction false} EvalArgsAgree(args: seq<Predicate>, r1: Row, r2: Row)
    requires forall c :: MentionsAny(args, c) ==> r1(c) == r2(c)
    ensures EvalAll(args, r1) == EvalAll(args, r2) && EvalAny(args, r1) == EvalAny(args, r2)
    decreases args, 0
  {
    if args != [] {
      var init, last := args[..|args| - 1], args[|args| - 1];
      forall c
        ensures MentionsAny(init, c) ==> r1(c) == r2(c)
        ensures Mentions(last, c) ==> r1(c) == r2(c)
      {
        assert MentionsAny(init, c) || Mentions(last, c) ==> MentionsAny(args, c);
      }
      EvalArgsAgree(init, r1, r2);
      EvalAgrees(last, r1, r2);
    }
  }

  // ----- dashboard filters

  function Equals(field: string, value: string): Predicate {
    Predicate("=", [], field, value, [])
  }

  function AppendPredicate(where: Option<Predicate>, value: string, field: string): Option<Predicate> {
    var v := TrimSpace(value);
    if v == "" then where
    else if where.None? then Some(Equals(field, v))
    else if EqualFold(where.value.op, "and") then
      Some(Predicate("and", where.value.args + [Equals(field, v)], "", "", []))
    else Some(Predicate("and", [where.value, Equals(field, v)], "", "", []))
  }

  /** append(append([]Predicate(nil), args...), extra): the result is a new array, and the
      caller's array, spare capacity included, is left alone. */
  method ExtendArgs(args: array<Predicate>, len: nat, extra: Predicate) returns (out: array<Predicate>)
    requires len <= args.Length
    ensures fresh(out) && out[..] == args[..len] + [extra]
    ensures args[..] == old(args[..])
  {
    out := new Predicate[len + 1](_ => extra);
    for i := 0 to len
      invariant out[..i] == args[..i] && out[len] == extra
      invariant args[..] == old(args[..])
    {
      out[i] := args[i];
    }
    assert out[..len + 1] == out[..len] + [extra];
    assert out[..len + 1] == out[..];
  }

  /** The same with the caller's slice of arguments: the predicate it returns is the extended
      one, and the slice, spare capacity included, is as it was. */
  method BuildAppended(where: Option<Predicate>, args: array<Predicate>, len: nat, value: string, field: string)
    returns (out: Option<Predicate>)
    requires where.Some? ==> len <= args.Length && where.value.args == args[..len]
    ensures out == AppendPredicate(where, value, field)
    ensures args[..] == old(args[..])
  {
    var v := TrimSpace(value);
    if v == "" {
      return where;
    }
    var next := Equals(field, v);
    if where.None? {
      return Some(next);
    }
    if EqualFold(where.value.op, "and") {
      var extended := ExtendArgs(args, len, next);
      return Some(Predicate("and", extended[..], "", "", []));
    }
    out := Some(Predicate("and", [where.value, next], "", "", []));
  }

  datatype Dataset = Issues | Logs | Transactions | Spans | UnknownDataset
  datatype Filters = Filters(environment: string, release: string, transaction: string)

  predicate SupportsField(d: Dataset, field: string) {
    match d
    case Issues => field == "environment" || field == "release"
    case Logs => field == "environment" || field == "release"
    case Transactions => field == "environment" || field == "release" || field == "transaction"
    case Spans => field == "transaction"
    case UnknownDataset => false
  }

  function AppendSupported(d: Dataset, where: Option<Predicate>, value: string, field: string): Option<Predicate> {
    if SupportsField(d, field) then AppendPredicate(where, value, field) else where
  }

  function WidgetWhere(d: Dataset, where: Option<Predicate>, f: Filters): Option<Predicate> {
    var w1 := AppendSupported(d, where, f.environment, "environment");
    var w2 := AppendSupported(d, w1, f.release, "release");
    AppendSupported(d, w2, f.transaction, "transaction")
  }

  /** What one dashboard filter asks of a row: nothing when it is blank or unsupported. */
  function Asks(d: Dataset, value: string, field: string, row: Row): Truth {
    if SupportsField(d, field) && TrimSpace(value) != "" then row(Comparison("=", field, TrimSpace(value), []))
    else True
  }

  lemma BothLaws(a: Truth, b: Truth, c: Truth)
    ensures Both(a, Both(b, c)) == Both(Both(a, b), c) && Both(a, b) == Both(b, a) && Both(True, a) == a
    ensures Either(a, Either(b, c)) == Either(Either(a, b), c) && Either(False, a) == a
  {
  }

  lemma TrimTwice(s: string)
    ensures TrimSpace(TrimSpace(s)) == TrimSpace(s)
  {
    TrimShape(s, Space);
    TrimFixed(TrimSpace(s), Space);
  }

  lemma FilterFields(field: string)
    requires field == "environment" || field == "release" || field == "transaction"
    ensures ToLower(TrimSpace(field)) == field
  {
    TrimFixed(field, Space);
    LowerFixed(field);
  }

  lemma EqualsCompares(field: string, value: string)
    requires field == "environment" || field == "release" || field == "transaction"
    ensures KindOf(Equals(field, TrimSpace(value)).op) == Compare
    ensures ComparisonOf(Equals(field, TrimSpace(value))) == Comparison("=", field, TrimSpace(value), [])
  {
    TrimTwice(value);
    FilterFields(field);
    TrimFixed("=", Space);
    assert OpName("=") == "=";
  }

  lemma AndName()
    ensures KindOf("and") == And
  {
    TrimFixed("and", Space);
    LowerFixed("and");
  }

  lemma {:induction false} FoldedAndIsAnd(op: string)
    requires EqualFold(op, "and")
    ensures KindOf(op) == And
  {
    AndName();
    assert ToLower("and") == "and";
    var low := ToLower(op);
    assert |op| == 3;
    assert LowerChar(op[0]) == 'a' && LowerChar(op[2]) == 'd';
    TrimFixed(op, Space);
  }

  lemma EvalAllSnoc(args: seq<Predicate>, p: Predicate, row: Row)
    ensures EvalAll(args + [p], row) == Both(EvalAll(args, row), Eval(p, row))
  {
    assert (args + [p])[..|args|] == args;
  }

  lemma AndMeans(args: seq<Predicate>, p: Predicate, row: Row)
    ensures Eval(Predicate("and", args + [p], "", "", []), row) == Both(EvalAll(args, row), Eval(p, row))
  {
    AndName();
    EvalAllSnoc(args, p, row);
  }

  lemma AndOfTwo(p: Predicate, q: Predicate, row: Row)
    ensures Eval(Predicate("and", [p, q], "", "", []), row) == Both(Eval(p, row), Eval(q, row))
  {
    AndName();
    TwoArgs(p, q, row);
  }

  /** One filter: the new predicate means the old one and the comparison, whatever the old
      one is, "and" in any letter case included. */
  lemma AppendMeans(where: Option<Predicate>, value: string, field: string, row: Row)
    requires field == "environment" || field == "release" || field == "transaction"
    requires TrimSpace(value) != ""
    ensures EvalWhere(AppendPredicate(where, value, field), row) ==
            Both(EvalWhere(where, row), row(Comparison("=", field, TrimSpace(value), [])))
  {
    EqualsCompares(field, value);
    var q := Equals(field, TrimSpace(value));
    if where.Some? {
      if EqualFold(where.value.op, "and") {
        FoldedAndIsAnd(where.value.op);
        AndMeans(where.value.args, q, row);
      } else {
        AndOfTwo(where.value, q, row);
      }
    } else {
      BothLaws(Eval(q, row), True, True);
    }
  }

  lemma SupportedMeans(d: Dataset, where: Option<Predicate>, value: string, field: string, row: Row)
    requires field == "environment" || field == "release" || field == "transaction"
    ensures EvalWhere(AppendSupported(d, where, value, field), row) ==
            Both(EvalWhere(where, row), Asks(d, value, field, row))
  {
    BothLaws(EvalWhere(where, row), True, True);
    if SupportsField(d, field) && TrimSpace(value) != "" {
      AppendMeans(where, value, field, row);
    }
  }

  /** The rewritten query admits a row exactly when the original does and every
      supported, non-blank dashboard filter matches; unknowns included. */
  lemma WidgetQueryMeans(d: Dataset, where: Option<Predicate>, f: Filters, row: Row)
    ensures EvalWhere(WidgetWhere(d, where, f), row) ==
            Both(EvalWhere(where, row),
                 Both(Asks(d, f.environment, "environment", row),
                      Both(Asks(d, f.release, "release", row), Asks(d, f.transaction, "transaction", row))))
  {
    var w1 := AppendSupported(d, where, f.environment, "environment");
    var w2 := AppendSupported(d, w1, f.release, "release");
    SupportedMeans(d, where, f.environment, "environment", row);
    SupportedMeans(d, w1, f.release, "release", row);
    SupportedMeans(d, w2, f.transaction, "transaction", row);
    var a, b := Asks(d, f.environment, "environment", row), Asks(d, f.release, "release", row);
    var c := Asks(d, f.transaction, "transaction", row);
    BothLaws(EvalWhere(where, row), a, b);
    BothLaws(EvalWhere(where, row), Both(a, b), c);
    BothLaws(a, b, c);
  }

  // ----- validation

  /** The arity rules of query validation; `ok` judges the comparisons. */
  predicate Valid(p: Predicate, ok: Comparison -> bool)
    decreases p, 1
  {
    match KindOf(p.op)
    case And => p.args != [] && ValidAll(p.args, ok)
    case Or => p.args != [] && ValidAll(p.args, ok)
    case Not => |p.args| == 1 && Valid(p.args[0], ok)
    case Compare => ok(ComparisonOf(p))
  }

  predicate ValidAll(args: seq<Predicate>, ok: Comparison -> bool)
    decreases args, 0
  {
    args == [] || (ValidAll(args[..|args| - 1], ok) && Valid(args[|args| - 1], ok))
  }

  lemma {:induction false} ValidAgrees(p: Predicate, f: Comparison -> bool, g: Comparison -> bool)
    requires forall c :: f(c) == g(c)
    ensures Valid(p, f) <==> Valid(p, g)
    decreases p, 1
  {
    ValidAllAgree(p.args, f, g);
    if |p.args| == 1 {
      ValidAgrees(p.args[0], f, g);
    }
  }

  lemma {:induction false} ValidAllAgree(args: seq<Predicate>, f: Comparison -> bool, g: Comparison -> bool)
    requires forall c :: f(c) == g(c)
    ensures ValidAll(args, f) <==> ValidAll(args, g)
    decreases args, 0
  {
    if args != [] {
      ValidAllAgree(args[..|args| - 1], f, g);
      ValidAgrees(args[|args| - 1], f, g);
    }
  }

  /** A filter leaves a valid query valid and an invalid one invalid, with one exception:
      an "and" without arguments is rejected alone and accepted with a filter. */
  lemma AppendKeepsValidity(w: Predicate, value: string, field: string, ok: Comparison -> bool)
    requires field == "environment" || field == "release" || field == "transaction"
    requires TrimSpace(value) != "" && ok(Comparison("=", field, TrimSpace(value), []))
    ensures Valid(AppendPredicate(Some(w), value, field).value, ok) <==>
            Valid(w, ok) || (EqualFold(w.op, "and") && w.args == [])
  {
    var q := Equals(field, TrimSpace(value));
    EqualsCompares(field, value);
    if EqualFold(w.op, "and") {
      FoldedAndIsAnd(w.op);
      ValidAndSnoc(w.args, q, ok);
    } else {
      ValidAndSnoc([w], q, ok);
      ValidOne(w, ok);
      assert [w] + [q] == [w, q];
    }
  }

  lemma ValidAndSnoc(args: seq<Predicate>, q: Predicate, ok: Comparison -> bool)
    requires Valid(q, ok)
    ensures Valid(Predicate("and", args + [q], "", "", []), ok) <==> ValidAll(args, ok)
  {
    AndName();
    assert (args + [q])[..|args|] == args;
  }

  lemma ValidOne(w: Predicate, ok: Comparison -> bool)
    ensures ValidAll([w], ok) <==> Valid(w, ok)
  {
    assert [w][..0] == [];
  }

  /** A filter that is blank asks nothing, any other that the field equals it. */
  function FilterTruth(value: string, field: string, row: Row): Truth {
    if TrimSpace(value) == "" then True else row(Comparison("=", field, TrimSpace(value), []))
  }

  /** Which filters each dataset honours. */
  lemma WidgetMeans(d: Dataset, where: Option<Predicate>, f: Filters, row: Row)
    ensures var env, rel := FilterTruth(f.environment, "environment", row), FilterTruth(f.release, "release", row);
            var tx, own := FilterTruth(f.transaction, "transaction", row), EvalWhere(where, row);
            EvalWhere(WidgetWhere(d, where, f), row) ==
            match d
            case Issues => Both(own, Both(env, rel))
            case Logs => Both(own, Both(env, rel))
            case Transactions => Both(own, Both(env, Both(rel, tx)))
            case Spans => Both(own, tx)
            case UnknownDataset => own
  {
    WidgetQueryMeans(d, where, f, row);
    BothLaws(FilterTruth(f.release, "release", row), True, True);
    BothLaws(EvalWhere(where, row), True, True);
    BothLaws(FilterTruth(f.transaction, "transaction", row), True, True);
  }
}
