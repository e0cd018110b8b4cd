/** Compilation of predicates to SQL (internal/discovershared/sql.go, plan.go): text with
    placeholders, and the list of bound arguments. The text is a token list, read back with
    SQL's precedence (NOT over AND over OR). */
module SqlCompile {
  import opened LikePatterns
  import opened Options
  import opened Predicates
  import opened Text

  // ----- SQL text and its reading

  /** `= ?`, `!= ?`, `LIKE ? ESCAPE` (or ILIKE), `> ?`, `>= ?`, `< ?`, `<= ?`, `= ''`, `!= ''` and `IN (?, ...)`. */
  datatype SqlOp =
    | Equal | Unequal | Matches | Greater | GreaterEqual | Smaller | SmallerEqual | Blank | NotBlank | OneOf

  /** A comparison in the text; each hole is the number of a bound argument, from 1. */
  datatype Cond = Cond(expr: string, op: SqlOp, holes: seq<nat>)
  datatype Token = LParen | RParen | AndTok | OrTok | NotTok | AtomTok(cond: Cond)

  datatype Sql = SAtom(cond: Cond) | SAnd(l: Sql, r: Sql) | SOr(l: Sql, r: Sql) | SNot(e: Sql)
  datatype Parsed = Fail | Parsed(e: Sql, rest: seq<Token>)

  function ParseOr(ts: seq<Token>): (r: Parsed)
    ensures r.Parsed? ==> |r.rest| < |ts|
    decreases |ts|, 3
  {
    match ParseAnd(ts)
    case Fail => Fail
    case Parsed(e, rest) => OrTail(e, rest)
  }

  function OrTail(e: Sql, ts: seq<Token>): (r: Parsed)
    ensures r.Parsed? ==> |r.rest| <= |ts|
    decreases |ts|, 4
  {
    if ts == [] || ts[0] != OrTok then Parsed(e, ts)
    else
      match ParseAnd(ts[1..])
      case Fail => Fail
      case Parsed(f, rest) => OrTail(SOr(e, f), rest)
  }

  function ParseAnd(ts: seq<Token>): (r: Parsed)
    ensures r.Parsed? ==> |r.rest| < |ts|
    decreases |ts|, 1
  {
    match ParseNot(ts)
    case Fail => Fail
    case Parsed(e, rest) => AndTail(e, rest)
  }

  function AndTail(e: Sql, ts: seq<Token>): (r: Parsed)
    ensures r.Parsed? ==> |r.rest| <= |ts|
    decreases |ts|, 2
  {
    if ts == [] || ts[0] != AndTok then Parsed(e, ts)
    else
      match ParseNot(ts[1..])
      case Fail => Fail
      case Parsed(f, rest) => AndTail(SAnd(e, f), rest)
  }

  function ParseNot(ts: seq<Token>): (r: Parsed)
    ensures r.Parsed? ==> |r.rest| < |ts|
    decreases |ts|, 0
  {
    if ts == [] then Fail
    else
      match ts[0]
      case NotTok =>
        (match ParseNot(ts[1..])
         case Fail => Fail
         case Parsed(e, rest) => Parsed(SNot(e), rest))
      case LParen =>
        (match ParseOr(ts[1..])
         case Fail => Fail
         case Parsed(e, rest) => if rest != [] && rest[0] == RParen then Parsed(e, rest[1..]) else Fail)
      case AtomTok(cond) => Parsed(SAtom(cond), ts[1..])
      case _ => Fail
  }

  /** What the database answers to a comparison of a column expression with bound values. */
  datatype Atom = Atom(expr: string, op: SqlOp, bound: seq<string>)
  type Db = Atom -> Truth

  function ArgAt(args: seq<string>, hole: nat): string {
    if 1 <= hole <= |args| then args[hole - 1] else ""
  }

  function Fill(args: seq<string>, holes: seq<nat>): seq<string> {
    seq(|holes|, i requires 0 <= i < |holes| => ArgAt(args, holes[i]))
  }

  function EvalSql(e: Sql, args: seq<string>, db: Db): Truth {
    match e
    case SAtom(c) => db(Atom(c.expr, c.op, Fill(args, c.holes)))
    case SAnd(l, r) => Both(EvalSql(l, args, db), EvalSql(r, args, db))
    case SOr(l, r) => Either(EvalSql(l, args, db), EvalSql(r, args, db))
    case SNot(f) => Negate(EvalSql(f, args, db))
  }

  // ----- the compiler

  predicate Supported(op: string) {
    || op == "=" || op == "!=" || op == "contains" || op == "prefix" || op == ">" || op == ">="
    || op == "<" || op == "<=" || op == "is_null" || op == "not_null" || op == "in"
  }

  function SqlOpOf(op: string): SqlOp {
    if op == "=" then Equal
    else if op == "!=" then Unequal
    else if op == "contains" || op == "prefix" then Matches
    else if op == ">" then Greater
    else if op == ">=" then GreaterEqual
    else if op == "<" then Smaller
    else if op == "<=" then SmallerEqual
    else if op == "is_null" then Blank
    else if op == "not_null" then NotBlank
    else OneOf
  }

  /** The values a comparison binds, in order. */
  function Bound(c: Comparison): seq<string> {
    if c.op == "contains" then ["%" + EscapeLike(c.value) + "%"]
    else if c.op == "prefix" then [EscapeLike(c.value) + "%"]
    else if c.op == "in" then c.values
    else if c.op == "is_null" || c.op == "not_null" then []
    else [c.value]
  }

  /** What a backend's override says to a comparison. */
  datatype Hook = Unhandled | Rejected | Handled(atom: Atom)

  /** The column expression of every field a backend knows, and its override. */
  datatype Dialect = Dialect(columns: map<string, string>, hook: Comparison -> Hook)

  predicate Compiles(c: Comparison, fields: Dialect) {
    match fields.hook(c)
    case Unhandled => c.field in fields.columns && Supported(c.op)
    case Rejected => false
    case Handled(_) => true
  }

  /** What the database is asked for a comparison. */
  function AtomOf(c: Comparison, fields: Dialect): Atom
    requires Compiles(c, fields)
  {
    var hook := fields.hook(c);
    if hook.Handled? then hook.atom else Atom(fields.columns[c.field], SqlOpOf(c.op), Bound(c))
  }

  /** The row a database and a table of column expressions define. */
  function RowOf(fields: Dialect, db: Db): Row {
    (c: Comparison) => if Compiles(c, fields) then db(AtomOf(c, fields)) else Unknown
  }

  function Numbers(from: nat, count: nat): seq<nat> {
    seq(count, i => from + 1 + i)
  }

  datatype Connective = ByAnd | ByOr

  function ConnTok(c: Connective): Token {
    match c
    case ByAnd => AndTok
    case ByOr => OrTok
  }

  /** Compiled text: parts to be joined by a connective, and the arguments bound. */
  datatype Code = Code(conn: Connective, parts: seq<seq<Token>>, args: seq<string>)

  function JoinTail(tok: Token, parts: seq<seq<Token>>): seq<Token> {
    if parts == [] then [] else [tok] + parts[0] + JoinTail(tok, parts[1..])
  }

  /** strings.Join(parts, " AND ") or " OR ". */
  function Join(tok: Token, parts: seq<seq<Token>>): seq<Token> {
    if parts == [] then [] else parts[0] + JoinTail(tok, parts[1..])
  }

  function TextOf(code: Code): seq<Token> {
    Join(ConnTok(code.conn), code.parts)
  }

  function Parens(ts: seq<Token>): seq<Token> {
    [LParen] + ts + [RParen]
  }

  /** The comparison as it stands, not normalised. */
  function Leaf(p: Predicate): Comparison {
    Comparison(p.op, p.field, p.value, p.values)
  }

  /** One comparison in the text, its arguments numbered after the `bound` earlier ones. */
  function AtomPart(a: Atom, bound: nat): seq<Token> {
    [AtomTok(Cond(a.expr, a.op, Numbers(bound, |a.bound|)))]
  }

  /** `bound` arguments are already in the builder; new ones are numbered after them. */
  function Compile(p: Predicate, fields: Dialect, bound: nat): Option<Code>
    decreases p, 1
  {
    match KindNamed(p.op)
    case And => CompileArgs(p.args, ByAnd, fields, bound)
    case Or => CompileArgs(p.args, ByOr, fields, bound)
    case Not => if p.args == [] then None else CompileNot(Compile(p.args[0], fields, bound))
    case Compare => CompileLeaf(Leaf(p), fields, bound)
  }

  function CompileLeaf(c: Comparison, fields: Dialect, bound: nat): Option<Code> {
    if !Compiles(c, fields) then None
    else
      var atom := AtomOf(c, fields);
      Some(Code(ByAnd, [AtomPart(atom, bound)], atom.bound))
  }

  function CompileNot(inner: Option<Code>): Option<Code> {
    match inner
    case None => None
    case Some(code) => Some(Code(ByAnd, [[NotTok] + Parens(TextOf(code))], code.args))
  }

  function CompileArgs(args: seq<Predicate>, conn: Connective, fields: Dialect, bound: nat): Option<Code>
    decreases args, 0
  {
    if args == [] then Some(Code(conn, [], []))
    else
      match CompileArgs(args[..|args| - 1], conn, fields, bound)
      case None => None
      case Some(init) => AddPart(init, Compile(args[|args| - 1], fields, bound + |init.args|))
  }

  function AddPart(init: Code, last: Option<Code>): Option<Code> {
    match last
    case None => None
    case Some(code) => Some(Code(init.conn, init.parts + [Parens(TextOf(code))], init.args + code.args))
  }

  /** The argument builder: arguments are appended and numbered as they come. */
  class ArgBuilder {
    var args: seq<string>

    constructor ()
      ensures args == []
    {
      args := [];
    }

    method AddAll(values: seq<string>) returns (holes: seq<nat>)
      modifies this
      ensures args == old(args) + values && holes == Numbers(|old(args)|, |values|)
    {
      holes := [];
      ghost var before := args;
      for i := 0 to |values|
        invariant args == before + values[..i] && holes == Numbers(|before|, i)
      {
        args := args + [values[i]];
        holes := holes + [|args|];
        assert values[..i] + [values[i]] == values[..i + 1];
      }
      assert values[..|values|] == values;
    }
  }

  /** The override first, then the field, then the operator. */
  method ChooseAtom(c: Comparison, fields: Dialect) returns (atom: Option<Atom>)
    ensures atom == if Compiles(c, fields) then Some(AtomOf(c, fields)) else None
  {
    var hook := fields.hook(c);
    if hook.Rejected? {
      return None;
    }
    if hook.Handled? {
      return Some(hook.atom);
    }
    if c.field !in fields.columns || !Supported(c.op) {
      return None;
    }
    atom := Some(Atom(fields.columns[c.field], SqlOpOf(c.op), Bound(c)));
  }

  method CompilePredicate(p: Predicate, fields: Dialect, builder: ArgBuilder) returns (code: Option<Code>)
    modifies builder
    ensures code == Compile(p, fields, |old(builder.args)|)
    ensures code.Some? ==> builder.args == old(builder.args) + code.value.args
    decreases p, 1
  {
    match KindNamed(p.op) {
      case And => code := CompileAll(p.args, ByAnd, fields, builder);
      case Or => code := CompileAll(p.args, ByOr, fields, builder);
      case Not =>
        if p.args == [] {
          return None;
        }
        var inner := CompilePredicate(p.args[0], fields, builder);
        code := CompileNot(inner);
      case Compare =>
        var atom := ChooseAtom(Leaf(p), fields);
        if atom.None? {
          return None;
        }
        var a := atom.value;
        var holes := builder.AddAll(a.bound);
        code := Some(Code(ByAnd, [[AtomTok(Cond(a.expr, a.op, holes))]], a.bound));
    }
  }

  /** Compiles one more argument and adds its parenthesised text. */
  method AddChild(child: Predicate, ghost before: seq<string>, done: Code, fields: Dialect, builder: ArgBuilder)
    returns (code: Option<Code>)
    requires builder.args == before + done.args
    modifies builder
    ensures code == AddPart(done, Compile(child, fields, |before| + |done.args|))
    ensures code.Some? ==> builder.args == before + code.value.args
    decreases child, 2
  {
    var inner := CompilePredicate(child, fields, builder);
    code := AddPart(done, inner);
  }

  method CompileAll(args: seq<Predicate>, conn: Connective, fields: Dialect, builder: ArgBuilder)
    returns (code: Option<Code>)
    modifies builder
    ensures code == CompileArgs(args, conn, fields, |old(builder.args)|)
    ensures code.Some? ==> builder.args == old(builder.args) + code.value.args
    decreases args, 0
  {
    ghost var before := builder.args;
    var done := Code(conn, [], []);
    for i := 0 to |args|
      invariant CompileArgs(args[..i], conn, fields, |before|) == Some(done)
      invariant builder.args == before + done.args
    {
      ArgsStep(args, i, conn, fields, |before|, done);
      var more := AddChild(args[i], before, done, fields, builder);
      if more.None? {
        ArgsFail(args, i, conn, fields, |before|);
        return None;
      }
      done := more.value;
    }
    assert args[..|args|] == args;
    code := Some(done);
  }

  /** The loop's step: one more argument is compiled and added. */
  lemma ArgsStep(args: seq<Predicate>, i: nat, conn: Connective, fields: Dialect, bound: nat, done: Code)
    requires i < |args| && CompileArgs(args[..i], conn, fields, bound) == Some(done)
    ensures CompileArgs(args[..i + 1], conn, fields, bound) ==
            AddPart(done, Compile(args[i], fields, bound + |done.args|))
  {
    assert args[..i + 1][..i] == args[..i];
  }

  /** Once one argument fails to compile, so do all longer lists. */
  lemma {:induction false} ArgsFail(args: seq<Predicate>, i: nat, conn: Connective, fields: Dialect, bound: nat)
    requires i < |args| && CompileArgs(args[..i + 1], conn, fields, bound).None?
    ensures CompileArgs(args, conn, fields, bound).None?
    decreases |args|
  {
    if i + 1 == |args| {
      assert args[..i + 1] == args;
    } else {
      var init := args[..|args| - 1];
      assert init[..i + 1] == args[..i + 1];
      ArgsFail(init, i, conn, fields, bound);
    }
  }

  // ----- normalised predicates

  /** Operator, field and values as the normaliser leaves them, all the way down. */
  predicate IsNormal(p: Predicate)
    decreases p, 1
  {
    OpName(p.op) == p.op && ComparisonOf(p) == Leaf(p) && AllNormal(p.args)
  }

  predicate AllNormal(args: seq<Predicate>)
    decreases args, 0
  {
    args == [] || (AllNormal(args[..|args| - 1]) && IsNormal(args[|args| - 1]))
  }

  function Normalize(p: Predicate): Predicate
    decreases p, 1
  {
    var c := ComparisonOf(p);
    Predicate(c.op, NormalizeAll(p.args), c.field, c.value, c.values)
  }

  function NormalizeAll(args: seq<Predicate>): seq<Predicate>
    decreases args, 0
  {
    if args == [] then [] else NormalizeAll(args[..|args| - 1]) + [Normalize(args[|args| - 1])]
  }

  lemma NameFixed(s: string)
    ensures OpName(OpName(s)) == OpName(s) && TrimSpace(TrimSpace(s)) == TrimSpace(s)
  {
    TrimTwice(s);
    TrimShape(s, Space);
    TrimFixed(OpName(s), Space);
    LowerIdempotent(TrimSpace(s));
  }

  lemma ComparisonFixed(p: Predicate)
    ensures ComparisonOf(Normalize(p)) == ComparisonOf(p) == Leaf(Normalize(p))
    ensures OpName(Normalize(p).op) == OpName(p.op) == Normalize(p).op
  {
    NameFixed(p.op);
    NameFixed(p.field);
    NameFixed(p.value);
    forall i | 0 <= i < |p.values|
      ensures TrimSpace(TrimSpace(p.values[i])) == TrimSpace(p.values[i])
    {
      NameFixed(p.values[i]);
    }
    assert ComparisonOf(Normalize(p)).values == ComparisonOf(p).values;
  }

  lemma {:induction false} NormalizeIsNormal(p: Predicate)
    ensures IsNormal(Normalize(p))
    decreases p, 1
  {
    ComparisonFixed(p);
    NormalizeAllNormal(p.args);
  }

  lemma {:induction false} NormalizeAllNormal(args: seq<Predicate>)
    ensures |NormalizeAll(args)| == |args| && AllNormal(NormalizeAll(args))
    decreases args, 0
  {
    if args != [] {
      NormalizeAllNormal(args[..|args| - 1]);
      NormalizeIsNormal(args[|args| - 1]);
      assert NormalizeAll(args)[..|args| - 1] == NormalizeAll(args[..|args| - 1]);
    }
  }

  /** The normal form has the same meaning and the same validity. */
  lemma {:induction false} NormalizeKeepsMeaning(p: Predicate, row: Row, ok: Comparison -> bool)
    ensures Eval(Normalize(p), row) == Eval(p, row)
    ensures Valid(Normalize(p), ok) <==> Valid(p, ok)
    decreases p, 1
  {
    ComparisonFixed(p);
    NormalizeAllNormal(p.args);
    match KindOf(p.op)
    case And => NormalizeAllKeeps(p.args, row, ok);
    case Or => NormalizeAllKeeps(p.args, row, ok);
    case Not =>
      if |p.args| == 1 {
        NormalizeKeepsMeaning(p.args[0], row, ok);
        assert p.args[..0] == [];
      }
    case Compare =>
  }

  lemma {:induction false} NormalizeAllKeeps(args: seq<Predicate>, row: Row, ok: Comparison -> bool)
    ensures EvalAll(NormalizeAll(args), row) == EvalAll(args, row)
    ensures EvalAny(NormalizeAll(args), row) == EvalAny(args, row)
    ensures ValidAll(NormalizeAll(args), ok) <==> ValidAll(args, ok)
    decreases args, 0
  {
    if args != [] {
      NormalizeAllKeeps(args[..|args| - 1], row, ok);
      NormalizeKeepsMeaning(args[|args| - 1], row, ok);
      assert NormalizeAll(args)[..|args| - 1] == NormalizeAll(args[..|args| - 1]) by {
        NormalizeAllNormal(args[..|args| - 1]);
      }
    }
  }

  // ----- reading joined parts back

  /** `part` reads as one operand of NOT, AND or OR, whatever follows it. */
  ghost predicate IsUnit(part: seq<Token>, tree: Sql) {
    forall rest :: ParseNot(part + rest) == Parsed(tree, rest)
  }

  ghost predicate AreUnits(parts: seq<seq<Token>>, trees: seq<Sql>) {
    |parts| == |trees| && forall i :: 0 <= i < |parts| ==> IsUnit(parts[i], trees[i])
  }

  function FoldConn(c: Connective, e: Sql, trees: seq<Sql>): Sql {
    if trees == [] then e
    else
      var l := FoldConn(c, e, trees[..|trees| - 1]);
      match c
      case ByAnd => SAnd(l, trees[|trees| - 1])
      case ByOr => SOr(l, trees[|trees| - 1])
  }

  lemma {:induction false} FoldStep(c: Connective, e: Sql, trees: seq<Sql>)
    requires trees != []
    ensures FoldConn(c, e, trees) == FoldConn(c, FoldConn(c, e, [trees[0]]), trees[1..])
  {
    if |trees| == 1 {
      assert trees == [trees[0]] && trees[1..] == [];
    } else {
      var init := trees[..|trees| - 1];
      FoldStep(c, e, init);
      assert trees[1..][..|trees| - 2] == init[1..] && init[0] == trees[0];
    }
  }

  lemma FoldOne(c: Connective, e: Sql, t: Sql)
    ensures FoldConn(c, e, [t]) == match c case ByAnd => SAnd(e, t) case ByOr => SOr(e, t)
  {
    assert [t][..0] == [];
  }

  predicate NotAnd(rest: seq<Token>) {
    rest == [] || rest[0] != AndTok
  }

  predicate Ends(rest: seq<Token>) {
    rest == [] || rest[0] == RParen
  }

  lemma AndStep(e: Sql, part: seq<Token>, tree: Sql, more: seq<Token>)
    requires IsUnit(part, tree)
    ensures AndTail(e, [AndTok] + part + more) == AndTail(SAnd(e, tree), more)
  {
    var ts := [AndTok] + part + more;
    assert ts != [] && ts[0] == AndTok && ts[1..] == part + more;
    assert ParseNot(ts[1..]) == Parsed(tree, more);
  }

  lemma OrTailReads(e: Sql, ts: seq<Token>, tree: Sql, more: seq<Token>)
    requires ts != [] && ts[0] == OrTok && ParseAnd(ts[1..]) == Parsed(tree, more)
    ensures OrTail(e, ts) == OrTail(SOr(e, tree), more)
  {
  }

  lemma OrStep(e: Sql, part: seq<Token>, tree: Sql, more: seq<Token>)
    requires IsUnit(part, tree) && NotAnd(more)
    ensures OrTail(e, [OrTok] + part + more) == OrTail(SOr(e, tree), more)
  {
    var ts := [OrTok] + part + more;
    assert ts != [] && ts[0] == OrTok && ts[1..] == part + more;
    ReadUnit(part, tree, more);
    OrTailReads(e, ts, tree, more);
  }

  lemma {:induction false} ReadAndTail(e: Sql, parts: seq<seq<Token>>, trees: seq<Sql>, rest: seq<Token>)
    requires AreUnits(parts, trees)
    ensures AndTail(e, JoinTail(AndTok, parts) + rest) == AndTail(FoldConn(ByAnd, e, trees), rest)
    decreases |parts|
  {
    if parts == [] {
      assert JoinTail(AndTok, parts) + rest == rest;
    } else {
      var more := JoinTail(AndTok, parts[1..]) + rest;
      assert JoinTail(AndTok, parts) + rest == [AndTok] + parts[0] + more;
      AndStep(e, parts[0], trees[0], more);
      FoldOne(ByAnd, e, trees[0]);
      ReadAndTail(SAnd(e, trees[0]), parts[1..], trees[1..], rest);
      FoldStep(ByAnd, e, trees);
    }
  }

  /** Parts joined by AND read as their conjunction. */
  lemma ReadAnd(parts: seq<seq<Token>>, trees: seq<Sql>, rest: seq<Token>)
    requires AreUnits(parts, trees) && parts != [] && NotAnd(rest)
    ensures ParseAnd(Join(AndTok, parts) + rest) == Parsed(FoldConn(ByAnd, trees[0], trees[1..]), rest)
  {
    var more := JoinTail(AndTok, parts[1..]) + rest;
    assert Join(AndTok, parts) + rest == parts[0] + more;
    assert IsUnit(parts[0], trees[0]);
    ReadAndTail(trees[0], parts[1..], trees[1..], rest);
  }

  lemma ReadUnit(part: seq<Token>, tree: Sql, rest: seq<Token>)
    requires IsUnit(part, tree) && NotAnd(rest)
    ensures ParseAnd(part + rest) == Parsed(tree, rest)
  {
  }

  lemma {:induction false} ReadOrTail(e: Sql, parts: seq<seq<Token>>, trees: seq<Sql>, rest: seq<Token>)
    requires AreUnits(parts, trees) && NotAnd(rest)
    ensures OrTail(e, JoinTail(OrTok, parts) + rest) == OrTail(FoldConn(ByOr, e, trees), rest)
    decreases |parts|
  {
    if parts == [] {
      assert JoinTail(OrTok, parts) + rest == rest;
    } else {
      var more := JoinTail(OrTok, parts[1..]) + rest;
      assert JoinTail(OrTok, parts) + rest == [OrTok] + parts[0] + more;
      OrStep(e, parts[0], trees[0], more);
      FoldOne(ByOr, e, trees[0]);
      ReadOrTail(SOr(e, trees[0]), parts[1..], trees[1..], rest);
      FoldStep(ByOr, e, trees);
    }
  }

  /** Joined parts, followed by nothing or a closing parenthesis, read as their fold. */
  lemma ReadJoin(conn: Connective, parts: seq<seq<Token>>, trees: seq<Sql>, rest: seq<Token>)
    requires AreUnits(parts, trees) && parts != [] && Ends(rest)
    ensures ParseOr(Join(ConnTok(conn), parts) + rest) == Parsed(FoldConn(conn, trees[0], trees[1..]), rest)
  {
    match conn
    case ByAnd => ReadAnd(parts, trees, rest);
    case ByOr =>
      var more := JoinTail(OrTok, parts[1..]) + rest;
      assert Join(OrTok, parts) + rest == parts[0] + more;
      assert IsUnit(parts[0], trees[0]) && NotAnd(more);
      ReadUnit(parts[0], trees[0], more);
      ReadOrTail(trees[0], parts[1..], trees[1..], rest);
  }

  lemma ParensAreUnit(ts: seq<Token>, tree: Sql)
    requires forall rest :: Ends(rest) ==> ParseOr(ts + rest) == Parsed(tree, rest)
    ensures IsUnit(Parens(ts), tree)
  {
    forall rest
      ensures ParseNot(Parens(ts) + rest) == Parsed(tree, rest)
    {
      var all := Parens(ts) + rest;
      assert all[0] == LParen && all[1..] == ts + ([RParen] + rest);
      assert Ends([RParen] + rest);
      assert ([RParen] + rest)[1..] == rest;
    }
  }

  lemma NotIsUnit(part: seq<Token>, tree: Sql)
    requires IsUnit(part, tree)
    ensures IsUnit([NotTok] + part, SNot(tree))
  {
    forall rest
      ensures ParseNot([NotTok] + part + rest) == Parsed(SNot(tree), rest)
    {
      ReadNot([NotTok] + part + rest, part, tree, rest);
    }
  }

  lemma ReadNot(ts: seq<Token>, part: seq<Token>, tree: Sql, rest: seq<Token>)
    requires ts == [NotTok] + part + rest && ParseNot(part + rest) == Parsed(tree, rest)
    ensures ParseNot(ts) == Parsed(SNot(tree), rest)
  {
    assert ts != [] && ts[0] == NotTok && ts[1..] == part + rest;
  }

  lemma AtomIsUnit(cond: Cond)
    ensures IsUnit([AtomTok(cond)], SAtom(cond))
  {
    forall rest
      ensures ParseNot([AtomTok(cond)] + rest) == Parsed(SAtom(cond), rest)
    {
      var all := [AtomTok(cond)] + rest;
      assert all[0] == AtomTok(cond) && all[1..] == rest;
    }
  }

  // ----- the compiler preserves meaning

  function Combine(c: Connective, a: Truth, b: Truth): Truth {
    match c
    case ByAnd => Both(a, b)
    case ByOr => Either(a, b)
  }

  function Unit(c: Connective): Truth {
    match c
    case ByAnd => True
    case ByOr => False
  }

  function EvalTrees(c: Connective, trees: seq<Sql>, args: seq<string>, db: Db): Truth {
    if trees == [] then Unit(c)
    else Combine(c, EvalTrees(c, trees[..|trees| - 1], args, db), EvalSql(trees[|trees| - 1], args, db))
  }

  lemma {:induction false} EvalFold(c: Connective, e: Sql, trees: seq<Sql>, args: seq<string>, db: Db)
    ensures EvalSql(FoldConn(c, e, trees), args, db) == Combine(c, EvalSql(e, args, db), EvalTrees(c, trees, args, db))
  {
    if trees == [] {
      BothLaws(EvalSql(e, args, db), True, True);
    } else {
      EvalFold(c, e, trees[..|trees| - 1], args, db);
      BothLaws(EvalSql(e, args, db), EvalTrees(c, trees[..|trees| - 1], args, db),
        EvalSql(trees[|trees| - 1], args, db));
    }
  }

  lemma {:induction false} EvalTreesCons(c: Connective, trees: seq<Sql>, args: seq<string>, db: Db)
    requires trees != []
    ensures EvalTrees(c, trees, args, db) == Combine(c, EvalSql(trees[0], args, db), EvalTrees(c, trees[1..], args, db))
  {
    var init, last := trees[..|trees| - 1], trees[|trees| - 1];
    if |trees| == 1 {
      assert init == [] && trees[1..] == [];
      BothLaws(EvalSql(last, args, db), True, True);
    } else {
      EvalTreesCons(c, init, args, db);
      assert trees[1..][..|trees| - 2] == init[1..] && init[0] == trees[0];
      BothLaws(EvalSql(trees[0], args, db), EvalTrees(c, init[1..], args, db), EvalSql(last, args, db));
    }
  }

  /** The bound arguments sit in `args` from position `bound` on. */
  predicate Holds(args: seq<string>, bound: nat, own: seq<string>) {
    bound + |own| <= |args| && forall i :: 0 <= i < |own| ==> args[bound + i] == own[i]
  }

  lemma FillNumbers(args: seq<string>, bound: nat, own: seq<string>)
    requires Holds(args, bound, own)
    ensures Fill(args, Numbers(bound, |own|)) == own
  {
  }

  /** Parts that read as `trees`, and their meaning joined. */
  ghost predicate Reads(code: Code, trees: seq<Sql>, args: seq<string>, db: Db, meaning: Truth) {
    AreUnits(code.parts, trees) && EvalTrees(code.conn, trees, args, db) == meaning
  }

  /** The meaning of a predicate whose operators and fields are taken as they stand. */
  function EvalAsIs(p: Predicate, row: Row): Truth
    decreases p, 1
  {
    match KindNamed(p.op)
    case And => JoinAsIs(ByAnd, p.args, row)
    case Or => JoinAsIs(ByOr, p.args, row)
    case Not => if |p.args| == 1 then Negate(EvalAsIs(p.args[0], row)) else Unknown
    case Compare => row(Leaf(p))
  }

  function JoinAsIs(c: Connective, args: seq<Predicate>, row: Row): Truth
    decreases args, 0
  {
    if args == [] then Unit(c) else Combine(c, JoinAsIs(c, args[..|args| - 1], row), EvalAsIs(args[|args| - 1], row))
  }

  /** Connectives have arguments, and "not" has one. */
  predicate Shaped(p: Predicate)
    decreases p, 1
  {
    match KindNamed(p.op)
    case And => p.args != [] && AllShaped(p.args)
    case Or => p.args != [] && AllShaped(p.args)
    case Not => |p.args| == 1 && Shaped(p.args[0])
    case Compare => true
  }

  predicate AllShaped(args: seq<Predicate>)
    decreases args, 0
  {
    args == [] || (AllShaped(args[..|args| - 1]) && Shaped(args[|args| - 1]))
  }

  /** Normal predicates mean what they mean as they stand, and valid ones are well shaped. */
  lemma {:induction false} NormalAsIs(p: Predicate, row: Row, ok: Comparison -> bool)
    requires IsNormal(p)
    ensures EvalAsIs(p, row) == Eval(p, row)
    ensures Valid(p, ok) ==> Shaped(p)
    decreases p, 1
  {
    match KindOf(p.op)
    case And => NormalArgsAsIs(p.args, row, ok);
    case Or => NormalArgsAsIs(p.args, row, ok);
    case Not =>
      if |p.args| == 1 {
        NormalAsIs(p.args[0], row, ok);
      }
    case Compare =>
  }

  lemma {:induction false} NormalArgsAsIs(args: seq<Predicate>, row: Row, ok: Comparison -> bool)
    requires AllNormal(args)
    ensures JoinAsIs(ByAnd, args, row) == EvalAll(args, row) && JoinAsIs(ByOr, args, row) == EvalAny(args, row)
    ensures ValidAll(args, ok) ==> AllShaped(args)
    decreases args, 0
  {
    if args != [] {
      NormalArgsAsIs(args[..|args| - 1], row, ok);
      NormalAsIs(args[|args| - 1], row, ok);
    }
  }

  /** The compiled parts each read as one operand, and joined they mean the predicate. */
  lemma {:induction false} CompiledMeans(p: Predicate, fields: Dialect, bound: nat, code: Code, args: seq<string>,
      db: Db)
    returns (trees: seq<Sql>)
    requires Shaped(p) && Compile(p, fields, bound) == Some(code) && Holds(args, bound, code.args)
    ensures code.parts != [] && Reads(code, trees, args, db, EvalAsIs(p, RowOf(fields, db)))
    decreases p, 2
  {
    match KindNamed(p.op)
    case And =>
      trees := ArgsMean(p.args, ByAnd, fields, bound, code, args, db);
      JoinedMean(ByAnd, trees, p.args, args, fields, db);
    case Or =>
      trees := ArgsMean(p.args, ByOr, fields, bound, code, args, db);
      JoinedMean(ByOr, trees, p.args, args, fields, db);
    case Not =>
      var inner := Compile(p.args[0], fields, bound).value;
      var sub := CompiledMeans(p.args[0], fields, bound, inner, args, db);
      trees := NotMeans(inner, sub, args, db, EvalAsIs(p.args[0], RowOf(fields, db)));
    case Compare => trees := LeafMeans(Leaf(p), fields, bound, args, db);
  }

  lemma NotMeans(inner: Code, sub: seq<Sql>, args: seq<string>, db: Db, meaning: Truth) returns (trees: seq<Sql>)
    requires inner.parts != [] && Reads(inner, sub, args, db, meaning)
    ensures Reads(CompileNot(Some(inner)).value, trees, args, db, Negate(meaning))
  {
    var tree := GroupMeans(inner, sub, args, db);
    NotIsUnit(Parens(TextOf(inner)), tree);
    trees := [SNot(tree)];
    EvalOne(SNot(tree), args, db);
  }

  lemma LeafMeans(c: Comparison, fields: Dialect, bound: nat, args: seq<string>, db: Db) returns (trees: seq<Sql>)
    requires CompileLeaf(c, fields, bound).Some? && Holds(args, bound, AtomOf(c, fields).bound)
    ensures Reads(CompileLeaf(c, fields, bound).value, trees, args, db, RowOf(fields, db)(c))
  {
    var tree := AtomMeans(AtomOf(c, fields), bound, args, db);
    trees := [tree];
    EvalOne(tree, args, db);
  }

  lemma AtomMeans(a: Atom, bound: nat, args: seq<string>, db: Db) returns (tree: Sql)
    requires Holds(args, bound, a.bound)
    ensures IsUnit(AtomPart(a, bound), tree) && EvalSql(tree, args, db) == db(a)
  {
    var cond := Cond(a.expr, a.op, Numbers(bound, |a.bound|));
    AtomIsUnit(cond);
    FillNumbers(args, bound, a.bound);
    tree := SAtom(cond);
  }

  lemma EvalOne(t: Sql, args: seq<string>, db: Db)
    ensures forall c :: EvalTrees(c, [t], args, db) == EvalSql(t, args, db)
  {
    assert [t][..0] == [];
    BothLaws(EvalSql(t, args, db), True, True);
  }

  /** Parenthesised compiled text is one operand with the meaning of the text. */
  lemma GroupMeans(code: Code, trees: seq<Sql>, args: seq<string>, db: Db) returns (tree: Sql)
    requires code.parts != [] && AreUnits(code.parts, trees)
    ensures IsUnit(Parens(TextOf(code)), tree)
    ensures forall rest :: Ends(rest) ==> ParseOr(TextOf(code) + rest) == Parsed(tree, rest)
    ensures EvalSql(tree, args, db) == EvalTrees(code.conn, trees, args, db)
  {
    tree := FoldConn(code.conn, trees[0], trees[1..]);
    forall rest | Ends(rest)
      ensures ParseOr(TextOf(code) + rest) == Parsed(tree, rest)
    {
      ReadJoin(code.conn, code.parts, trees, rest);
    }
    ParensAreUnit(TextOf(code), tree);
    EvalFold(code.conn, trees[0], trees[1..], args, db);
    EvalTreesCons(code.conn, trees, args, db);
  }

  /** Each tree means its predicate. */
  ghost predicate Mean(trees: seq<Sql>, ps: seq<Predicate>, args: seq<string>, fields: Dialect, db: Db) {
    |trees| == |ps| && forall i :: 0 <= i < |ps| ==> EvalSql(trees[i], args, db) == EvalAsIs(ps[i], RowOf(fields, db))
  }

  lemma {:induction false} JoinedMean(conn: Connective, trees: seq<Sql>, ps: seq<Predicate>, args: seq<string>,
      fields: Dialect, db: Db)
    requires Mean(trees, ps, args, fields, db)
    ensures EvalTrees(conn, trees, args, db) == JoinAsIs(conn, ps, RowOf(fields, db))
    decreases |ps|
  {
    if ps != [] {
      JoinedMean(conn, trees[..|ps| - 1], ps[..|ps| - 1], args, fields, db);
    }
  }

  lemma {:induction false} ArgsMean(ps: seq<Predicate>, conn: Connective, fields: Dialect, bound: nat, code: Code,
      args: seq<string>, db: Db)
    returns (trees: seq<Sql>)
    requires AllShaped(ps) && CompileArgs(ps, conn, fields, bound) == Some(code) && Holds(args, bound, code.args)
    ensures code.conn == conn && AreUnits(code.parts, trees)
    ensures Mean(trees, ps, args, fields, db)
    decreases ps, 1
  {
    if ps == [] {
      trees := [];
    } else {
      var init, last := ArgsSplit(ps, conn, fields, bound);
      SplitHolds(args, bound, init.args, last.args);
      var before := ArgsMean(ps[..|ps| - 1], conn, fields, bound, init, args, db);
      trees := LastMeans(ps, fields, bound + |init.args|, init, before, last, args, db);
    }
  }

  /** The first arguments have been read; the last one is read and added. */
  lemma {:induction false} LastMeans(ps: seq<Predicate>, fields: Dialect, bound: nat, init: Code, before: seq<Sql>,
      last: Code, args: seq<string>, db: Db)
    returns (trees: seq<Sql>)
    requires ps != [] && Shaped(ps[|ps| - 1])
    requires Compile(ps[|ps| - 1], fields, bound) == Some(last) && Holds(args, bound, last.args)
    requires AreUnits(init.parts, before) && Mean(before, ps[..|ps| - 1], args, fields, db)
    ensures var code := AddPart(init, Some(last)).value; code.conn == init.conn && AreUnits(code.parts, trees)
    ensures Mean(trees, ps, args, fields, db)
    decreases ps, 0
  {
    var sub := CompiledMeans(ps[|ps| - 1], fields, bound, last, args, db);
    trees := OneMoreMeans(init, before, ps, last, sub, args, fields, db);
  }

  lemma OneMoreMeans(init: Code, before: seq<Sql>, ps: seq<Predicate>, last: Code, sub: seq<Sql>, args: seq<string>,
      fields: Dialect, db: Db)
    returns (trees: seq<Sql>)
    requires AreUnits(init.parts, before) && ps != [] && Mean(before, ps[..|ps| - 1], args, fields, db)
    requires last.parts != [] && Reads(last, sub, args, db, EvalAsIs(ps[|ps| - 1], RowOf(fields, db)))
    ensures var code := AddPart(init, Some(last)).value; code.conn == init.conn && AreUnits(code.parts, trees)
    ensures Mean(trees, ps, args, fields, db)
  {
    var tree := GroupMeans(last, sub, args, db);
    trees := before + [tree];
    UnitsSnoc(init.parts, before, Parens(TextOf(last)), tree);
    MeanSnoc(before, ps, tree, args, fields, db);
  }

  /** Compiled arguments are the compiled first ones and the compiled last one. */
  lemma ArgsSplit(ps: seq<Predicate>, conn: Connective, fields: Dialect, bound: nat) returns (init: Code, last: Code)
    requires ps != [] && CompileArgs(ps, conn, fields, bound).Some?
    ensures CompileArgs(ps[..|ps| - 1], conn, fields, bound) == Some(init)
    ensures Compile(ps[|ps| - 1], fields, bound + |init.args|) == Some(last)
    ensures CompileArgs(ps, conn, fields, bound) == AddPart(init, Some(last))
  {
    init := CompileArgs(ps[..|ps| - 1], conn, fields, bound).value;
    last := Compile(ps[|ps| - 1], fields, bound + |init.args|).value;
  }

  lemma UnitsSnoc(parts: seq<seq<Token>>, trees: seq<Sql>, part: seq<Token>, tree: Sql)
    requires AreUnits(parts, trees) && IsUnit(part, tree)
    ensures AreUnits(parts + [part], trees + [tree])
  {
  }

  lemma MeanSnoc(trees: seq<Sql>, ps: seq<Predicate>, tree: Sql, args: seq<string>, fields: Dialect, db: Db)
    requires ps != [] && Mean(trees, ps[..|ps| - 1], args, fields, db)
    requires EvalSql(tree, args, db) == EvalAsIs(ps[|ps| - 1], RowOf(fields, db))
    ensures Mean(trees + [tree], ps, args, fields, db)
  {
  }

  lemma SplitHolds(args: seq<string>, bound: nat, a: seq<string>, b: seq<string>)
    requires Holds(args, bound, a + b)
    ensures Holds(args, bound, a) && Holds(args, bound + |a|, b)
  {
    forall i | 0 <= i < |a|
      ensures args[bound + i] == a[i]
    {
      assert (a + b)[i] == a[i];
    }
    forall i | 0 <= i < |b|
      ensures args[bound + |a| + i] == b[i]
    {
      assert (a + b)[|a| + i] == b[i];
    }
  }

  /** Compiler correctness: the text of a valid predicate parses, and the database gives
      it, with the bound arguments, the meaning of the predicate. */
  lemma CompilerPreservesMeaning(p: Predicate, fields: Dialect, bound: nat, args: seq<string>, db: Db,
      ok: Comparison -> bool)
    requires IsNormal(p) && Valid(p, ok) && Compile(p, fields, bound).Some?
    requires Holds(args, bound, Compile(p, fields, bound).value.args)
    ensures var r := ParseOr(TextOf(Compile(p, fields, bound).value));
            r.Parsed? && r.rest == [] && EvalSql(r.e, args, db) == Eval(p, RowOf(fields, db))
  {
    var code := Compile(p, fields, bound).value;
    NormalAsIs(p, RowOf(fields, db), ok);
    var trees := CompiledMeans(p, fields, bound, code, args, db);
    var tree := GroupMeans(code, trees, args, db);
    assert TextOf(code) + [] == TextOf(code);
    assert Ends([]);
  }

  function Known(fields: Dialect): Comparison -> bool {
    c => Compiles(c, fields)
  }

  /** A valid predicate compiles exactly when every comparison has a known field and operator. */
  lemma {:induction false} CompilesIff(p: Predicate, fields: Dialect, bound: nat, ok: Comparison -> bool)
    requires IsNormal(p) && Valid(p, ok)
    ensures Compile(p, fields, bound).Some? <==> Valid(p, Known(fields))
    decreases p, 1
  {
    match KindOf(p.op)
    case And => ArgsCompileIff(p.args, ByAnd, fields, bound, ok);
    case Or => ArgsCompileIff(p.args, ByOr, fields, bound, ok);
    case Not => CompilesIff(p.args[0], fields, bound, ok);
    case Compare =>
  }

  lemma {:induction false} ArgsCompileIff(ps: seq<Predicate>, conn: Connective, fields: Dialect, bound: nat,
      ok: Comparison -> bool)
    requires AllNormal(ps) && ValidAll(ps, ok)
    ensures CompileArgs(ps, conn, fields, bound).Some? <==> ValidAll(ps, Known(fields))
    decreases ps, 0
  {
    if ps != [] {
      ArgsCompileIff(ps[..|ps| - 1], conn, fields, bound, ok);
      var init := CompileArgs(ps[..|ps| - 1], conn, fields, bound);
      if init.Some? {
        CompilesIff(ps[|ps| - 1], fields, bound + |init.value.args|, ok);
      }
    }
  }

  // ----- numbered and positional placeholders

  /** The holes of a text, left to right. */
  function HolesOf(ts: seq<Token>): seq<nat> {
    if ts == [] then []
    else (if ts[0].AtomTok? then ts[0].cond.holes else []) + HolesOf(ts[1..])
  }

  lemma {:induction false} HolesConcat(a: seq<Token>, b: seq<Token>)
    ensures HolesOf(a + b) == HolesOf(a) + HolesOf(b)
  {
    if a == [] {
      assert a + b == b;
    } else {
      assert (a + b)[1..] == a[1..] + b;
      HolesConcat(a[1..], b);
    }
  }

  lemma HolesOne(t: Token)
    ensures HolesOf([t]) == if t.AtomTok? then t.cond.holes else []
  {
    assert [t][1..] == [];
  }

  lemma HolesParens(ts: seq<Token>)
    ensures HolesOf(Parens(ts)) == HolesOf(ts)
  {
    HolesOne(LParen);
    HolesOne(RParen);
    HolesConcat([LParen] + ts, [RParen]);
    HolesConcat([LParen], ts);
  }

  lemma {:induction false} JoinTailSnoc(tok: Token, parts: seq<seq<Token>>, last: seq<Token>)
    ensures JoinTail(tok, parts + [last]) == JoinTail(tok, parts) + [tok] + last
  {
    if parts == [] {
      assert parts + [last] == [last] && [last][1..] == [];
      assert JoinTail(tok, [last]) == [tok] + last;
      assert JoinTail(tok, parts) + [tok] + last == [tok] + last;
    } else {
      assert (parts + [last])[1..] == parts[1..] + [last];
      JoinTailSnoc(tok, parts[1..], last);
      assert [tok] + parts[0] + (JoinTail(tok, parts[1..]) + [tok] + last) ==
        [tok] + parts[0] + JoinTail(tok, parts[1..]) + [tok] + last;
    }
  }

  /** Joining one more part adds its holes at the end. */
  lemma JoinHoles(tok: Token, parts: seq<seq<Token>>, last: seq<Token>)
    requires !tok.AtomTok?
    ensures HolesOf(Join(tok, parts + [last])) == HolesOf(Join(tok, parts)) + HolesOf(last)
  {
    if parts == [] {
      assert parts + [last] == [last] && [last][1..] == [];
      assert Join(tok, [last]) == last;
    } else {
      JoinTailSnoc(tok, parts[1..], last);
      assert (parts + [last])[1..] == parts[1..] + [last];
      assert Join(tok, parts + [last]) == Join(tok, parts) + ([tok] + last);
      HolesConcat(Join(tok, parts), [tok] + last);
      HolesConcat([tok], last);
      HolesOne(tok);
    }
  }

  lemma NumbersSplit(bound: nat, m: nat, n: nat)
    ensures Numbers(bound, m) + Numbers(bound + m, n) == Numbers(bound, m + n)
  {
  }

  /** Placeholders stand in the text in the order of their arguments, so a driver that
      counts question marks binds the same values as one that reads the numbers. */
  lemma {:induction false} PlaceholdersInOrder(p: Predicate, fields: Dialect, bound: nat)
    requires Compile(p, fields, bound).Some?
    ensures var code := Compile(p, fields, bound).value;
            HolesOf(TextOf(code)) == Numbers(bound, |code.args|)
    decreases p, 1
  {
    match KindNamed(p.op)
    case And => ArgsInOrder(p.args, ByAnd, fields, bound);
    case Or => ArgsInOrder(p.args, ByOr, fields, bound);
    case Not =>
      PlaceholdersInOrder(p.args[0], fields, bound);
      var text := TextOf(Compile(p.args[0], fields, bound).value);
      HolesConcat([NotTok], Parens(text));
      HolesOne(NotTok);
      HolesParens(text);
      JoinOne(AndTok, [NotTok] + Parens(text));
    case Compare =>
      var part := AtomPart(AtomOf(Leaf(p), fields), bound);
      JoinOne(AndTok, part);
      HolesOne(part[0]);
  }

  lemma JoinOne(tok: Token, part: seq<Token>)
    ensures Join(tok, [part]) == part
  {
    assert [part][1..] == [];
  }

  lemma {:induction false} ArgsInOrder(args: seq<Predicate>, conn: Connective, fields: Dialect, bound: nat)
    requires CompileArgs(args, conn, fields, bound).Some?
    ensures var code := CompileArgs(args, conn, fields, bound).value;
            code.conn == conn && HolesOf(TextOf(code)) == Numbers(bound, |code.args|)
    decreases args, 0
  {
    if args != [] {
      var init := CompileArgs(args[..|args| - 1], conn, fields, bound).value;
      var last := Compile(args[|args| - 1], fields, bound + |init.args|).value;
      ArgsInOrder(args[..|args| - 1], conn, fields, bound);
      PlaceholdersInOrder(args[|args| - 1], fields, bound + |init.args|);
      HolesParens(TextOf(last));
      JoinHoles(ConnTok(conn), init.parts, Parens(TextOf(last)));
      NumbersSplit(bound, |init.args|, |last.args|);
    }
  }
}
