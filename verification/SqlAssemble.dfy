/** Assembly of the WHERE text (internal/discovershared/plan.go): scope clauses, the compiled
    predicate and the time range are joined by AND, the predicate without parentheses. */
module SqlAssemble {
  import opened Options
  import opened Predicates
  import opened SqlCompile
  import opened Text

  /** Clauses that are single comparisons: the scope, and the ends of the time range. */
  function AtomArgs(atoms: seq<Atom>): seq<string> {
    if atoms == [] then [] else AtomArgs(atoms[..|atoms| - 1]) + atoms[|atoms| - 1].bound
  }

  function AtomParts(atoms: seq<Atom>, bound: nat): seq<seq<Token>> {
    if atoms == [] then []
    else
      var init := atoms[..|atoms| - 1];
      AtomParts(init, bound) + [AtomPart(atoms[|atoms| - 1], bound + |AtomArgs(init)|)]
  }

  /** The clause a predicate contributes, none when there is no predicate. */
  function WhereCode(where: Option<Predicate>, fields: Dialect, bound: nat): Option<Code> {
    if where.None? then Some(Code(ByAnd, [], [])) else Compile(where.value, fields, bound)
  }

  function Clause(parts: seq<seq<Token>>, text: seq<Token>): seq<seq<Token>> {
    if parts == [] then [] else [text]
  }

  datatype Query = Query(base: seq<Atom>, where: Option<Predicate>, time: seq<Atom>)
  datatype Statement = Statement(text: seq<Token>, args: seq<string>)

  /** The clauses joined by AND; the ends of the time range form one clause. */
  function Assembled(base: seq<seq<Token>>, code: Code, time: seq<seq<Token>>): seq<Token> {
    Join(AndTok, base + Clause(code.parts, TextOf(code)) + Clause(time, Join(AndTok, time)))
  }

  function TimeParts(q: Query, code: Code): seq<seq<Token>> {
    AtomParts(q.time, |AtomArgs(q.base)| + |code.args|)
  }

  function TextFor(q: Query, code: Code): seq<Token> {
    Assembled(AtomParts(q.base, 0), code, TimeParts(q, code))
  }

  function ArgsFor(q: Query, code: Code): seq<string> {
    AtomArgs(q.base) + code.args + AtomArgs(q.time)
  }

  function Assemble(q: Query, fields: Dialect): Option<Statement> {
    match WhereCode(q.where, fields, |AtomArgs(q.base)|)
    case None => None
    case Some(code) => Some(Statement(TextFor(q, code), ArgsFor(q, code)))
  }

  method AddAtoms(atoms: seq<Atom>, builder: ArgBuilder) returns (parts: seq<seq<Token>>)
    modifies builder
    ensures builder.args == old(builder.args) + AtomArgs(atoms)
    ensures parts == AtomParts(atoms, |old(builder.args)|)
  {
    parts := [];
    ghost var before := builder.args;
    for i := 0 to |atoms|
      invariant builder.args == before + AtomArgs(atoms[..i])
      invariant parts == AtomParts(atoms[..i], |before|)
    {
      assert atoms[..i + 1][..i] == atoms[..i];
      var holes := builder.AddAll(atoms[i].bound);
      parts := parts + [[AtomTok(Cond(atoms[i].expr, atoms[i].op, holes))]];
    }
    assert atoms[..|atoms|] == atoms;
  }

  /** Builds the statement clause by clause; the builder numbers the arguments as it goes. */
  method BuildStatement(q: Query, fields: Dialect) returns (out: Option<Statement>)
    ensures out == Assemble(q, fields)
  {
    var builder := new ArgBuilder();
    var base := AddAtoms(q.base, builder);
    var code := Some(Code(ByAnd, [], []));
    if q.where.Some? {
      code := CompilePredicate(q.where.value, fields, builder);
      if code.None? {
        return None;
      }
    }
    var time := AddAtoms(q.time, builder);
    assert builder.args == AtomArgs(q.base) + code.value.args + AtomArgs(q.time);
    out := Some(Statement(Assembled(base, code.value, time), builder.args));
  }

  // ----- flattening

  lemma {:induction false} JoinTailConcat(tok: Token, a: seq<seq<Token>>, b: seq<seq<Token>>)
    ensures JoinTail(tok, a + b) == JoinTail(tok, a) + JoinTail(tok, b)
  {
    if a == [] {
      assert a + b == b;
    } else {
      assert (a + b)[1..] == a[1..] + b;
      JoinTailConcat(tok, a[1..], b);
    }
  }

  /** Joined clauses may be joined again as one clause. */
  lemma JoinTailClause(tok: Token, parts: seq<seq<Token>>)
    ensures JoinTail(tok, Clause(parts, Join(tok, parts))) == JoinTail(tok, parts)
  {
    if parts != [] {
      var text := Join(tok, parts);
      assert [text][1..] == [];
      assert JoinTail(tok, [text]) == [tok] + text;
    }
  }

  lemma JoinCons(tok: Token, a: seq<seq<Token>>, b: seq<seq<Token>>)
    requires a != []
    ensures Join(tok, a + b) == Join(tok, a) + JoinTail(tok, b)
  {
    assert (a + b)[1..] == a[1..] + b;
    JoinTailConcat(tok, a[1..], b);
  }

  lemma AssembledText(base: seq<seq<Token>>, code: Code, time: seq<seq<Token>>)
    requires base != []
    ensures Assembled(base, code, time) ==
            Join(AndTok, base) + JoinTail(AndTok, Clause(code.parts, TextOf(code))) + JoinTail(AndTok, time)
  {
    var where, last := Clause(code.parts, TextOf(code)), Clause(time, Join(AndTok, time));
    JoinCons(AndTok, base + where, last);
    JoinCons(AndTok, base, where);
    JoinTailClause(AndTok, time);
  }

  // ----- meaning of the clauses

  function AllOf(atoms: seq<Atom>, db: Db): Truth {
    if atoms == [] then True else Both(AllOf(atoms[..|atoms| - 1], db), db(atoms[|atoms| - 1]))
  }

  lemma {:induction false} AtomsMean(atoms: seq<Atom>, bound: nat, args: seq<string>, db: Db) returns (trees: seq<Sql>)
    requires Holds(args, bound, AtomArgs(atoms))
    ensures AreUnits(AtomParts(atoms, bound), trees)
    ensures |trees| == |atoms| && EvalTrees(ByAnd, trees, args, db) == AllOf(atoms, db)
  {
    if atoms == [] {
      trees := [];
    } else {
      var init, last := atoms[..|atoms| - 1], atoms[|atoms| - 1];
      SplitHolds(args, bound, AtomArgs(init), last.bound);
      var before := AtomsMean(init, bound, args, db);
      trees := AtomStep(AtomParts(init, bound), before, last, bound + |AtomArgs(init)|, args, db);
    }
  }

  lemma AtomStep(parts: seq<seq<Token>>, before: seq<Sql>, a: Atom, bound: nat, args: seq<string>, db: Db)
    returns (trees: seq<Sql>)
    requires AreUnits(parts, before) && Holds(args, bound, a.bound)
    ensures AreUnits(parts + [AtomPart(a, bound)], trees) && |trees| == |before| + 1
    ensures EvalTrees(ByAnd, trees, args, db) == Both(EvalTrees(ByAnd, before, args, db), db(a))
  {
    var tree := AtomMeans(a, bound, args, db);
    trees := before + [tree];
    UnitsSnoc(parts, before, AtomPart(a, bound), tree);
    EvalTreesSnoc(before, tree, args, db);
  }

  lemma EvalTreesSnoc(trees: seq<Sql>, tree: Sql, args: seq<string>, db: Db)
    ensures EvalTrees(ByAnd, trees + [tree], args, db) ==
            Both(EvalTrees(ByAnd, trees, args, db), EvalSql(tree, args, db))
  {
    assert (trees + [tree])[..|trees|] == trees;
  }

  lemma {:induction false} EvalTreesConcat(a: seq<Sql>, b: seq<Sql>, args: seq<string>, db: Db)
    ensures EvalTrees(ByAnd, a + b, args, db) == Both(EvalTrees(ByAnd, a, args, db), EvalTrees(ByAnd, b, args, db))
  {
    if b == [] {
      assert a + b == a;
      BothLaws(EvalTrees(ByAnd, a, args, db), True, True);
    } else {
      var init := b[..|b| - 1];
      assert (a + b)[..|a + b| - 1] == a + init;
      EvalTreesConcat(a, init, args, db);
      BothLaws(EvalTrees(ByAnd, a, args, db), EvalTrees(ByAnd, init, args, db), EvalSql(b[|b| - 1], args, db));
    }
  }

  lemma UnitsConcat(ps: seq<seq<Token>>, a: seq<Sql>, qs: seq<seq<Token>>, b: seq<Sql>)
    requires AreUnits(ps, a) && AreUnits(qs, b)
    ensures AreUnits(ps + qs, a + b)
  {
  }

  /** Parts joined by AND, followed by text that does not continue the conjunction. */
  lemma ReadAll(parts: seq<seq<Token>>, trees: seq<Sql>, rest: seq<Token>, args: seq<string>, db: Db)
    returns (tree: Sql)
    requires AreUnits(parts, trees) && parts != [] && NotAnd(rest)
    ensures ParseAnd(Join(AndTok, parts) + rest) == Parsed(tree, rest)
    ensures EvalSql(tree, args, db) == EvalTrees(ByAnd, trees, args, db)
  {
    ReadAnd(parts, trees, rest);
    tree := FoldConn(ByAnd, trees[0], trees[1..]);
    EvalFold(ByAnd, trees[0], trees[1..], args, db);
    EvalTreesCons(ByAnd, trees, args, db);
  }

  /** What the database makes of a text with its arguments; none if it does not parse. */
  function Meaning(text: seq<Token>, args: seq<string>, db: Db): Option<Truth> {
    match ParseOr(text)
    case Fail => None
    case Parsed(e, rest) => if rest == [] then Some(EvalSql(e, args, db)) else None
  }

  // ----- a predicate whose parts are joined by AND, or that has a single part

  lemma FlatMeans(base: seq<seq<Token>>, b: seq<Sql>, code: Code, w: seq<Sql>, time: seq<seq<Token>>, t: seq<Sql>,
      args: seq<string>, db: Db)
    requires base != [] && AreUnits(base, b) && AreUnits(code.parts, w) && AreUnits(time, t)
    requires code.conn == ByAnd || |code.parts| == 1
    ensures Meaning(Assembled(base, code, time), args, db) ==
            Some(Both(EvalTrees(ByAnd, b, args, db),
                      Both(EvalTrees(code.conn, w, args, db), EvalTrees(ByAnd, t, args, db))))
  {
    FlatText(base, code, time);
    UnitsConcat(base, b, code.parts, w);
    UnitsConcat(base + code.parts, b + w, time, t);
    WholeMeans(base + code.parts + time, b + w + t, args, db);
    FlatTruth(b, code.conn, w, t, args, db);
  }

  /** Parts joined by AND, and nothing else. */
  lemma WholeMeans(parts: seq<seq<Token>>, trees: seq<Sql>, args: seq<string>, db: Db)
    requires AreUnits(parts, trees) && parts != []
    ensures Meaning(Join(AndTok, parts), args, db) == Some(EvalTrees(ByAnd, trees, args, db))
  {
    var tree := ReadAll(parts, trees, [], args, db);
    assert Join(AndTok, parts) + [] == Join(AndTok, parts);
    assert ParseOr(Join(AndTok, parts)) == Parsed(tree, []);
  }

  lemma FlatTruth(b: seq<Sql>, conn: Connective, w: seq<Sql>, t: seq<Sql>, args: seq<string>, db: Db)
    requires conn == ByAnd || |w| == 1
    ensures EvalTrees(ByAnd, b + w + t, args, db) ==
            Both(EvalTrees(ByAnd, b, args, db), Both(EvalTrees(conn, w, args, db), EvalTrees(ByAnd, t, args, db)))
  {
    EvalTreesConcat(b + w, t, args, db);
    EvalTreesConcat(b, w, args, db);
    BothLaws(EvalTrees(ByAnd, b, args, db), EvalTrees(ByAnd, w, args, db), EvalTrees(ByAnd, t, args, db));
    if |w| == 1 {
      assert w == [w[0]];
      EvalOne(w[0], args, db);
    }
  }

  lemma FlatText(base: seq<seq<Token>>, code: Code, time: seq<seq<Token>>)
    requires base != [] && (code.conn == ByAnd || |code.parts| == 1)
    ensures Assembled(base, code, time) == Join(AndTok, base + code.parts + time)
  {
    AssembledText(base, code, time);
    JoinCons(AndTok, base + code.parts, time);
    JoinCons(AndTok, base, code.parts);
    if |code.parts| == 1 {
      assert code.parts == [code.parts[0]];
      JoinOne(ConnTok(code.conn), code.parts[0]);
      JoinOne(AndTok, code.parts[0]);
    }
    JoinTailClause(AndTok, code.parts);
  }

  // ----- a predicate with several parts joined by OR

  lemma SplitText(base: seq<seq<Token>>, code: Code, time: seq<seq<Token>>)
    requires base != [] && code.conn == ByOr && |code.parts| >= 2
    ensures var parts := code.parts;
            Assembled(base, code, time) ==
            Join(AndTok, base + [parts[0]]) +
            (JoinTail(OrTok, parts[1..|parts| - 1]) + ([OrTok] + (Join(AndTok, [parts[|parts| - 1]] + time))))
  {
    var parts := code.parts;
    var n := |parts|;
    var text := Join(OrTok, parts);
    AssembledText(base, code, time);
    assert [text][1..] == [];
    assert JoinTail(AndTok, [text]) == [AndTok] + text;
    JoinCons(AndTok, base, [parts[0]]);
    assert [parts[0]][1..] == [];
    assert JoinTail(AndTok, [parts[0]]) == [AndTok] + parts[0];
    assert parts[1..] == parts[1..n - 1] + [parts[n - 1]];
    JoinTailSnoc(OrTok, parts[1..n - 1], parts[n - 1]);
    JoinCons(AndTok, [parts[n - 1]], time);
    JoinOne(AndTok, parts[n - 1]);
    SplitShape(Join(AndTok, base), parts[0], JoinTail(OrTok, parts[1..n - 1]), parts[n - 1], JoinTail(AndTok, time));
  }

  lemma SplitShape(base: seq<Token>, first: seq<Token>, mid: seq<Token>, last: seq<Token>, time: seq<Token>)
    ensures base + ([AndTok] + (first + (mid + [OrTok] + last))) + time ==
            (base + ([AndTok] + first)) + (mid + ([OrTok] + (last + time)))
  {
  }

  /** A disjunction whose ends are conjunctions. */
  lemma ReadEnds(first: seq<seq<Token>>, f: seq<Sql>, middle: seq<seq<Token>>, m: seq<Sql>, last: seq<seq<Token>>,
      l: seq<Sql>, args: seq<string>, db: Db)
    requires AreUnits(first, f) && AreUnits(middle, m) && AreUnits(last, l) && first != [] && last != []
    ensures Meaning(Join(AndTok, first) + (JoinTail(OrTok, middle) + ([OrTok] + Join(AndTok, last))), args, db) ==
            Some(Either(Either(EvalTrees(ByAnd, f, args, db), EvalTrees(ByOr, m, args, db)),
                        EvalTrees(ByAnd, l, args, db)))
  {
    var tail := Join(AndTok, last);
    var more := JoinTail(OrTok, middle) + ([OrTok] + tail);
    StartsWithOr(middle, tail);
    var head := ReadAll(first, f, more, args, db);
    var end := ReadAll(last, l, [], args, db);
    ReadOrTail(head, middle, m, [OrTok] + tail);
    LastOr(FoldConn(ByOr, head, m), tail, end);
    EvalFold(ByOr, head, m, args, db);
  }

  /** What the assembled text means when the predicate's parts are joined by OR: the scope
      binds to the first part only and the time range to the last part only. */
  function SplitMeaning(base: Truth, w: seq<Sql>, time: Truth, args: seq<string>, db: Db): Truth
    requires |w| >= 2
  {
    Either(Either(Both(base, EvalSql(w[0], args, db)), EvalTrees(ByOr, w[1..|w| - 1], args, db)),
           Both(EvalSql(w[|w| - 1], args, db), time))
  }

  lemma SplitMeans(base: seq<seq<Token>>, b: seq<Sql>, code: Code, w: seq<Sql>,
                   time: seq<seq<Token>>, t: seq<Sql>, args: seq<string>, db: Db, meaning: Truth)
    requires base != [] && AreUnits(base, b) && AreUnits(code.parts, w) && AreUnits(time, t)
    requires code.conn == ByOr && |w| >= 2
    requires SplitMeaning(EvalTrees(ByAnd, b, args, db), w, EvalTrees(ByAnd, t, args, db), args, db) == meaning
    ensures Meaning(Assembled(base, code, time), args, db) == Some(meaning)
  {
    var parts := code.parts;
    var n := |parts|;
    SplitText(base, code, time);
    UnitsSnoc(base, b, parts[0], w[0]);
    UnitsConcat([parts[n - 1]], [w[n - 1]], time, t);
    ReadEnds(base + [parts[0]], b + [w[0]], parts[1..n - 1], w[1..n - 1],
             [parts[n - 1]] + time, [w[n - 1]] + t, args, db);
    EvalTreesSnoc(b, w[0], args, db);
    EvalTreesConcat([w[n - 1]], t, args, db);
    EvalOne(w[n - 1], args, db);
  }

  lemma StartsWithOr(middle: seq<seq<Token>>, tail: seq<Token>)
    ensures NotAnd(JoinTail(OrTok, middle) + ([OrTok] + tail))
  {
    if middle == [] {
      assert JoinTail(OrTok, middle) + ([OrTok] + tail) == [OrTok] + tail;
    }
  }

  lemma LastOr(e: Sql, tail: seq<Token>, last: Sql)
    requires ParseAnd(tail + []) == Parsed(last, [])
    ensures OrTail(e, [OrTok] + tail) == Parsed(SOr(e, last), [])
  {
    assert tail + [] == tail;
    assert ([OrTok] + tail)[1..] == tail;
  }

  // ----- the main results

  /** Several alternatives at the top of the predicate. */
  predicate TopLevelOr(where: Option<Predicate>) {
    where.Some? && KindNamed(where.value.op) == Or && |where.value.args| >= 2
  }

  ghost predicate Accepted(where: Option<Predicate>, ok: Comparison -> bool) {
    where.Some? ==> IsNormal(where.value) && Valid(where.value, ok)
  }

  /** What the caller asks for: scope, predicate and time range together. */
  function Asked(q: Query, fields: Dialect, db: Db): Truth {
    Both(AllOf(q.base, db), Both(EvalWhere(q.where, RowOf(fields, db)), AllOf(q.time, db)))
  }

  /** The scope guards the first alternative only, the time range the last one only. */
  function Alternatives(base: Truth, ps: seq<Predicate>, time: Truth, row: Row): Truth
    requires |ps| >= 2
  {
    Either(Either(Both(base, Eval(ps[0], row)), EvalAny(ps[1..|ps| - 1], row)), Both(Eval(ps[|ps| - 1], row), time))
  }

  /** What a top-level "or" is assembled to. */
  function Widened(q: Query, fields: Dialect, db: Db): Truth
    requires TopLevelOr(q.where)
  {
    Alternatives(AllOf(q.base, db), q.where.value.args, AllOf(q.time, db), RowOf(fields, db))
  }

  lemma ArgsHold(a: seq<string>, b: seq<string>, c: seq<string>)
    ensures Holds(a + b + c, 0, a) && Holds(a + b + c, |a|, b) && Holds(a + b + c, |a| + |b|, c)
  {
  }

  /** A statement's arguments: those of the scope, the predicate and the time range in turn. */
  ghost predicate Laid(args: seq<string>, base: seq<Atom>, own: seq<string>, time: seq<Atom>) {
    var n := |AtomArgs(base)|;
    Holds(args, 0, AtomArgs(base)) && Holds(args, n, own) && Holds(args, n + |own|, AtomArgs(time))
  }

  lemma ArgsAreLaid(q: Query, code: Code)
    ensures Laid(ArgsFor(q, code), q.base, code.args, q.time)
  {
    ArgsHold(AtomArgs(q.base), code.args, AtomArgs(q.time));
  }

  /** The scope and the time range read as their comparisons. */
  lemma EndsMean(q: Query, code: Code, db: Db) returns (b: seq<Sql>, t: seq<Sql>)
    ensures AreUnits(AtomParts(q.base, 0), b) && AreUnits(TimeParts(q, code), t) && |b| == |q.base|
    ensures EvalTrees(ByAnd, b, ArgsFor(q, code), db) == AllOf(q.base, db)
    ensures EvalTrees(ByAnd, t, ArgsFor(q, code), db) == AllOf(q.time, db)
  {
    ArgsAreLaid(q, code);
    b := AtomsMean(q.base, 0, ArgsFor(q, code), db);
    t := AtomsMean(q.time, |AtomArgs(q.base)| + |code.args|, ArgsFor(q, code), db);
  }

  lemma AskedFlat(q: Query, code: Code, w: seq<Sql>, db: Db, meaning: Truth)
    requires q.base != [] && Reads(code, w, ArgsFor(q, code), db, meaning) && (code.conn == ByAnd || |code.parts| == 1)
    ensures Meaning(TextFor(q, code), ArgsFor(q, code), db) ==
            Some(Both(AllOf(q.base, db), Both(meaning, AllOf(q.time, db))))
  {
    var b, t := EndsMean(q, code, db);
    FlatMeans(AtomParts(q.base, 0), b, code, w, TimeParts(q, code), t, ArgsFor(q, code), db);
  }

  lemma WidenedSplit(q: Query, code: Code, w: seq<Sql>, db: Db, meaning: Truth)
    requires q.base != [] && AreUnits(code.parts, w) && |w| >= 2 && code.conn == ByOr
    requires SplitMeaning(AllOf(q.base, db), w, AllOf(q.time, db), ArgsFor(q, code), db) == meaning
    ensures Meaning(TextFor(q, code), ArgsFor(q, code), db) == Some(meaning)
  {
    var b, t := EndsMean(q, code, db);
    SplitMeans(AtomParts(q.base, 0), b, code, w, TimeParts(q, code), t, ArgsFor(q, code), db, meaning);
  }

  /** The alternatives mean what they meant in the predicate. */
  lemma SplitMeaningOf(base: Truth, w: seq<Sql>, ps: seq<Predicate>, time: Truth, args: seq<string>, fields: Dialect,
      db: Db)
    requires |ps| >= 2 && AllNormal(ps) && Mean(w, ps, args, fields, db)
    ensures SplitMeaning(base, w, time, args, db) == Alternatives(base, ps, time, RowOf(fields, db))
  {
    var row, n := RowOf(fields, db), |ps|;
    JoinedMean(ByOr, w[1..n - 1], ps[1..n - 1], args, fields, db);
    NormalSlice(ps, 1, n - 1);
    NormalArgsAsIs(ps[1..n - 1], row, _ => true);
    NormalAt(ps, 0);
    NormalAt(ps, n - 1);
    NormalAsIs(ps[0], row, _ => true);
    NormalAsIs(ps[n - 1], row, _ => true);
  }

  lemma {:induction false} NormalAt(ps: seq<Predicate>, i: nat)
    requires AllNormal(ps) && i < |ps|
    ensures IsNormal(ps[i])
    decreases |ps|
  {
    if i < |ps| - 1 {
      NormalAt(ps[..|ps| - 1], i);
    }
  }

  lemma {:induction false} NormalSlice(ps: seq<Predicate>, i: nat, j: nat)
    requires AllNormal(ps) && i <= j <= |ps|
    ensures AllNormal(ps[i..j])
    decreases j
  {
    if i < j {
      NormalSlice(ps, i, j - 1);
      NormalAt(ps, j - 1);
      assert ps[i..j][..j - 1 - i] == ps[i..j - 1];
    }
  }

  lemma OrMeans(p: Predicate, fields: Dialect, bound: nat, args: seq<string>, db: Db, ok: Comparison -> bool,
      code: Code)
    returns (w: seq<Sql>)
    requires IsNormal(p) && Valid(p, ok) && KindNamed(p.op) == Or && Compile(p, fields, bound) == Some(code)
    requires Holds(args, bound, code.args)
    ensures code.conn == ByOr && AreUnits(code.parts, w) && Mean(w, p.args, args, fields, db)
  {
    NormalAsIs(p, RowOf(fields, db), ok);
    w := ArgsMean(p.args, ByOr, fields, bound, code, args, db);
  }

  /** The statement means the scope, the predicate and the time range together, unless the
      predicate is a top-level "or" ... */
  lemma AssembledMeans(q: Query, fields: Dialect, db: Db, ok: Comparison -> bool)
    requires q.base != [] && Accepted(q.where, ok) && Assemble(q, fields).Some? && !TopLevelOr(q.where)
    ensures var s := Assemble(q, fields).value; Meaning(s.text, s.args, db) == Some(Asked(q, fields, db))
  {
    var code := WhereCode(q.where, fields, |AtomArgs(q.base)|).value;
    ArgsAreLaid(q, code);
    var w := WhereMeans(q.where, fields, |AtomArgs(q.base)|, ArgsFor(q, code), db, ok);
    AskedFlat(q, code, w, db, EvalWhere(q.where, RowOf(fields, db)));
  }

  /** ... and then it means `Widened`. */
  lemma AssembledOrMeans(q: Query, fields: Dialect, db: Db, ok: Comparison -> bool)
    requires q.base != [] && Accepted(q.where, ok) && Assemble(q, fields).Some? && TopLevelOr(q.where)
    ensures var s := Assemble(q, fields).value; Meaning(s.text, s.args, db) == Some(Widened(q, fields, db))
  {
    var code := WhereCode(q.where, fields, |AtomArgs(q.base)|).value;
    ArgsAreLaid(q, code);
    var w := OrMeans(q.where.value, fields, |AtomArgs(q.base)|, ArgsFor(q, code), db, ok, code);
    SplitMeaningOf(AllOf(q.base, db), w, q.where.value.args, AllOf(q.time, db), ArgsFor(q, code), fields, db);
    WidenedSplit(q, code, w, db, Widened(q, fields, db));
  }

  lemma WhereMeans(where: Option<Predicate>, fields: Dialect, bound: nat, args: seq<string>, db: Db,
      ok: Comparison -> bool)
    returns (w: seq<Sql>)
    requires Accepted(where, ok) && WhereCode(where, fields, bound).Some? && !TopLevelOr(where)
    requires Holds(args, bound, WhereCode(where, fields, bound).value.args)
    ensures var code := WhereCode(where, fields, bound).value;
            && (code.conn == ByAnd || |code.parts| == 1)
            && Reads(code, w, args, db, EvalWhere(where, RowOf(fields, db)))
  {
    if where.None? {
      w := [];
    } else {
      var p := where.value;
      NormalAsIs(p, RowOf(fields, db), ok);
      w := CompiledMeans(p, fields, bound, WhereCode(where, fields, bound).value, args, db);
      if KindNamed(p.op) == Or || KindNamed(p.op) == And {
        PartsCount(p.args, if KindNamed(p.op) == Or then ByOr else ByAnd, fields, bound);
      }
    }
  }

  lemma {:induction false} PartsCount(ps: seq<Predicate>, conn: Connective, fields: Dialect, bound: nat)
    requires CompileArgs(ps, conn, fields, bound).Some?
    ensures var code := CompileArgs(ps, conn, fields, bound).value; code.conn == conn && |code.parts| == |ps|
    decreases |ps|
  {
    if ps != [] {
      PartsCount(ps[..|ps| - 1], conn, fields, bound);
    }
  }

  lemma EitherTrue(a: Truth, b: Truth)
    ensures Either(a, b) == True <==> a == True || b == True
    ensures Both(a, b) == True <==> a == True && b == True
  {
  }

  lemma {:induction false} AnyConcat(a: seq<Predicate>, b: seq<Predicate>, row: Row)
    ensures EvalAny(a + b, row) == Either(EvalAny(a, row), EvalAny(b, row))
  {
    if b == [] {
      assert a + b == a;
      BothLaws(EvalAny(a, row), True, True);
    } else {
      var init := b[..|b| - 1];
      assert (a + b)[..|a + b| - 1] == a + init;
      AnyConcat(a, init, row);
      BothLaws(EvalAny(a, row), EvalAny(init, row), Eval(b[|b| - 1], row));
    }
  }

  lemma AnyEnds(ps: seq<Predicate>, row: Row)
    requires |ps| >= 2
    ensures EvalAny(ps, row) == True <==>
            Eval(ps[0], row) == True || EvalAny(ps[1..|ps| - 1], row) == True || Eval(ps[|ps| - 1], row) == True
  {
    var n := |ps|;
    AnyCons(ps[..n - 1], row);
    assert ps[..n - 1][1..] == ps[1..n - 1];
    EitherTrue(EvalAny(ps[..n - 1], row), Eval(ps[n - 1], row));
  }

  lemma AnyCons(ps: seq<Predicate>, row: Row)
    requires ps != []
    ensures EvalAny(ps, row) == True <==> Eval(ps[0], row) == True || EvalAny(ps[1..], row) == True
  {
    assert ps == [ps[0]] + ps[1..];
    AnyConcat([ps[0]], ps[1..], row);
    AnyOne(ps[0], row);
    EitherTrue(Eval(ps[0], row), EvalAny(ps[1..], row));
  }

  lemma AnyOne(p: Predicate, row: Row)
    ensures EvalAny([p], row) == Eval(p, row)
  {
    assert [p][..0] == [];
    BothLaws(Eval(p, row), True, True);
  }

  /** A top-level "or" never loses a row that was asked for. On a row it agrees with the request
      if and only if scope and time range hold, or it admits nothing: the second disjunct is
      the negation of what it admits, written out. SomeDatabaseDiffers below says for which
      queries a disagreement occurs. */
  lemma WidenedAgreesIff(q: Query, fields: Dialect, db: Db)
    requires TopLevelOr(q.where)
    ensures Asked(q, fields, db) == True ==> Widened(q, fields, db) == True
    ensures var ps, row := q.where.value.args, RowOf(fields, db);
            var base, time := AllOf(q.base, db) == True, AllOf(q.time, db) == True;
            (Widened(q, fields, db) == True <==> Asked(q, fields, db) == True) <==>
            || (base && time)
            || !(|| (base && Eval(ps[0], row) == True)
                 || EvalAny(ps[1..|ps| - 1], row) == True
                 || (time && Eval(ps[|ps| - 1], row) == True))
  {
    var p, row := q.where.value, RowOf(fields, db);
    var ps, base, time := p.args, AllOf(q.base, db), AllOf(q.time, db);
    var first, mid, last := Eval(ps[0], row), EvalAny(ps[1..|ps| - 1], row), Eval(ps[|ps| - 1], row);
    EitherTrue(Both(base, first), mid);
    EitherTrue(Either(Both(base, first), mid), Both(last, time));
    EitherTrue(base, first);
    EitherTrue(last, time);
    OrName();
    EitherTrue(Eval(p, row), time);
    EitherTrue(base, Both(Eval(p, row), time));
    AnyEnds(ps, row);
  }

  lemma OrName()
    ensures OpName("or") == "or"
  {
    TrimFixed("or", Space);
    LowerFixed("or");
  }

  /** The failing family: whenever the last alternative and the time range hold, the row is
      admitted, whatever the scope says. */
  lemma LastAlternativeEscapes(q: Query, fields: Dialect, db: Db, ok: Comparison -> bool)
    requires q.base != [] && Accepted(q.where, ok) && Assemble(q, fields).Some? && TopLevelOr(q.where)
    requires var ps := q.where.value.args; Eval(ps[|ps| - 1], RowOf(fields, db)) == True
    requires AllOf(q.time, db) == True && AllOf(q.base, db) != True
    ensures Meaning(Assemble(q, fields).value.text, Assemble(q, fields).value.args, db) == Some(True)
    ensures Asked(q, fields, db) != True
  {
    AssembledOrMeans(q, fields, db, ok);
    var ps, row := q.where.value.args, RowOf(fields, db);
    var first := Either(Both(AllOf(q.base, db), Eval(ps[0], row)), EvalAny(ps[1..|ps| - 1], row));
    EitherTrue(first, Both(Eval(ps[|ps| - 1], row), AllOf(q.time, db)));
    EitherTrue(AllOf(q.base, db), Both(EvalWhere(q.where, row), AllOf(q.time, db)));
  }

  /** The mirror image: whenever the scope and the first alternative hold, the row is admitted,
      whatever the time range says. */
  lemma FirstAlternativeEscapes(q: Query, fields: Dialect, db: Db, ok: Comparison -> bool)
    requires q.base != [] && Accepted(q.where, ok) && Assemble(q, fields).Some? && TopLevelOr(q.where)
    requires Eval(q.where.value.args[0], RowOf(fields, db)) == True
    requires AllOf(q.base, db) == True && AllOf(q.time, db) != True
    ensures Meaning(Assemble(q, fields).value.text, Assemble(q, fields).value.args, db) == Some(True)
    ensures Asked(q, fields, db) != True
  {
    AssembledOrMeans(q, fields, db, ok);
    FirstHolds(AllOf(q.base, db), q.where.value.args, AllOf(q.time, db), RowOf(fields, db));
    EitherTrue(EvalWhere(q.where, RowOf(fields, db)), AllOf(q.time, db));
    EitherTrue(AllOf(q.base, db), Both(EvalWhere(q.where, RowOf(fields, db)), AllOf(q.time, db)));
  }

  lemma FirstHolds(base: Truth, ps: seq<Predicate>, time: Truth, row: Row)
    requires |ps| >= 2 && base == True && Eval(ps[0], row) == True
    ensures Alternatives(base, ps, time, row) == True
  {
    EitherTrue(Both(base, Eval(ps[0], row)), EvalAny(ps[1..|ps| - 1], row));
    EitherTrue(Either(Both(base, Eval(ps[0], row)), EvalAny(ps[1..|ps| - 1], row)),
               Both(Eval(ps[|ps| - 1], row), time));
  }

  /** The database that denies one comparison. */
  function Without(db: Db, a: Atom): Db {
    (x: Atom) => if x == a then False else db(x)
  }

  lemma {:induction false} AllOfWithout(atoms: seq<Atom>, db: Db, a: Atom)
    ensures if a in atoms then AllOf(atoms, Without(db, a)) == False
            else AllOf(atoms, Without(db, a)) == AllOf(atoms, db)
  {
    if atoms != [] {
      AllOfWithout(atoms[..|atoms| - 1], db, a);
      assert atoms == atoms[..|atoms| - 1] + [atoms[|atoms| - 1]];
    }
  }

  /** The predicate does not ask for the comparison. */
  ghost predicate AsksNot(p: Predicate, fields: Dialect, a: Atom) {
    forall c :: Mentions(p, c) && Compiles(c, fields) ==> AtomOf(c, fields) != a
  }

  lemma EvalWithout(p: Predicate, fields: Dialect, db: Db, a: Atom)
    requires AsksNot(p, fields, a)
    ensures Eval(p, RowOf(fields, Without(db, a))) == Eval(p, RowOf(fields, db))
  {
    EvalAgrees(p, RowOf(fields, Without(db, a)), RowOf(fields, db));
  }

  /** For which queries the statement and the request differ on some database: if the last
      alternative can hold in the time range, and some scope clause is asked for neither by
      that alternative nor by the time range, then denying that clause makes them differ. */
  lemma SomeDatabaseDiffers(q: Query, fields: Dialect, db: Db, a: Atom, ok: Comparison -> bool)
    requires q.base != [] && Accepted(q.where, ok) && Assemble(q, fields).Some? && TopLevelOr(q.where)
    requires var ps := q.where.value.args;
             AsksNot(ps[|ps| - 1], fields, a) && Eval(ps[|ps| - 1], RowOf(fields, db)) == True
    requires AllOf(q.time, db) == True && a in q.base && a !in q.time
    ensures var s, other := Assemble(q, fields).value, Without(db, a);
            Meaning(s.text, s.args, other) == Some(True) && Asked(q, fields, other) != True
  {
    var ps := q.where.value.args;
    EvalWithout(ps[|ps| - 1], fields, db, a);
    AllOfWithout(q.base, db, a);
    AllOfWithout(q.time, db, a);
    LastAlternativeEscapes(q, fields, Without(db, a), ok);
  }

  /** The same for the time range: if the first alternative can hold in the scope, and some end
      of the time range is asked for neither by it nor by the scope, denying that end makes
      them differ. */
  lemma SomeDatabaseDiffersInTime(q: Query, fields: Dialect, db: Db, a: Atom, ok: Comparison -> bool)
    requires q.base != [] && Accepted(q.where, ok) && Assemble(q, fields).Some? && TopLevelOr(q.where)
    requires var p := q.where.value.args[0]; AsksNot(p, fields, a) && Eval(p, RowOf(fields, db)) == True
    requires AllOf(q.base, db) == True && a in q.time && a !in q.base
    ensures var s, other := Assemble(q, fields).value, Without(db, a);
            Meaning(s.text, s.args, other) == Some(True) && Asked(q, fields, other) != True
  {
    EvalWithout(q.where.value.args[0], fields, db, a);
    AllOfWithout(q.base, db, a);
    AllOfWithout(q.time, db, a);
    FirstAlternativeEscapes(q, fields, Without(db, a), ok);
  }

  const EITHER_LEVEL := Predicate("or", [Equals("level", "error"), Equals("level", "fatal")], "", "", [])
  const LEVELS_OF_ONE := Query([Atom("p.id", Equal, ["1"])], Some(EITHER_LEVEL), [])
  const LEVEL_FIELD := Dialect(map["level" := "g.level"], NoHook)

  function NoHook(c: Comparison): Hook {
    Unhandled
  }

  /** A row at level fatal for which the scope clause fails. */
  function OutOfScope(): Db {
    (a: Atom) => if a.expr == "g.level" && a.bound == ["fatal"] then True else False
  }

  lemma LevelIsNormal(value: string, ok: Comparison -> bool)
    requires value == "error" || value == "fatal"
    ensures IsNormal(Equals("level", value))
    ensures ComparisonOf(Equals("level", value)) == Comparison("=", "level", value, [])
    ensures ok(Comparison("=", "level", value, [])) ==> Valid(Equals("level", value), ok)
  {
    TrimFixed("=", Space);
    LowerFixed("=");
    TrimFixed("level", Space);
    LowerFixed("level");
    TrimFixed(value, Space);
    assert ComparisonOf(Equals("level", value)).values == [];
  }

  lemma EitherLevelIsNormal(ok: Comparison -> bool)
    requires ok(Comparison("=", "level", "error", [])) && ok(Comparison("=", "level", "fatal", []))
    ensures IsNormal(EITHER_LEVEL) && Valid(EITHER_LEVEL, ok)
  {
    var ps := EITHER_LEVEL.args;
    LevelIsNormal("error", ok);
    LevelIsNormal("fatal", ok);
    assert ps[..1] == [ps[0]] && ps[..1][..0] == [];
    assert AllNormal(ps[..1]) && ValidAll(ps[..1], ok);
    OrName();
    TrimFixed("", Space);
    LowerFixed("");
    assert ComparisonOf(EITHER_LEVEL).values == [];
  }

  lemma LevelsAssemble(ok: Comparison -> bool)
    requires ok(Comparison("=", "level", "error", [])) && ok(Comparison("=", "level", "fatal", []))
    ensures Accepted(LEVELS_OF_ONE.where, ok) && Assemble(LEVELS_OF_ONE, LEVEL_FIELD).Some?
  {
    EitherLevelIsNormal(ok);
    EitherLevelIsNormal(Known(LEVEL_FIELD));
    CompilesIff(EITHER_LEVEL, LEVEL_FIELD, |AtomArgs(LEVELS_OF_ONE.base)|, ok);
  }

  lemma LevelsAnswer(ok: Comparison -> bool)
    ensures Eval(EITHER_LEVEL.args[1], RowOf(LEVEL_FIELD, OutOfScope())) == True
    ensures AllOf(LEVELS_OF_ONE.base, OutOfScope()) == False
  {
    LevelIsNormal("fatal", ok);
    AndNames();
    var c := Comparison("=", "level", "fatal", []);
    assert Compiles(c, LEVEL_FIELD) && AtomOf(c, LEVEL_FIELD) == Atom("g.level", Equal, ["fatal"]);
    assert RowOf(LEVEL_FIELD, OutOfScope())(c) == OutOfScope()(AtomOf(c, LEVEL_FIELD));
    assert LEVELS_OF_ONE.base[..0] == [];
  }

  /** Two levels asked for in one project: the scope clause does not guard the second one. */
  lemma TopLevelOrExample(ok: Comparison -> bool)
    requires ok(Comparison("=", "level", "error", [])) && ok(Comparison("=", "level", "fatal", []))
    ensures Accepted(LEVELS_OF_ONE.where, ok) && Assemble(LEVELS_OF_ONE, LEVEL_FIELD).Some?
    ensures var s := Assemble(LEVELS_OF_ONE, LEVEL_FIELD).value; Meaning(s.text, s.args, OutOfScope()) == Some(True)
    ensures Asked(LEVELS_OF_ONE, LEVEL_FIELD, OutOfScope()) != True
  {
    LevelsAssemble(ok);
    LevelsAnswer(ok);
    LastAlternativeEscapes(LEVELS_OF_ONE, LEVEL_FIELD, OutOfScope(), ok);
  }

  lemma AndNames()
    ensures KindOf("and") == And && KindOf("=") == Compare
  {
    TrimFixed("and", Space);
    LowerFixed("and");
    TrimFixed("=", Space);
    LowerFixed("=");
  }

  /** A dashboard filter that applies puts an "and" on top. */
  lemma FilterIsNotTopLevelOr(where: Option<Predicate>, value: string, field: string)
    requires TrimSpace(value) != ""
    ensures AppendPredicate(where, value, field).Some?
    ensures !TopLevelOr(Some(Normalize(AppendPredicate(where, value, field).value)))
  {
    var p := AppendPredicate(where, value, field).value;
    assert p.op == "and" || p.op == "=";
    AndNames();
    KindKept(p);
  }

  lemma KindKept(p: Predicate)
    ensures KindNamed(Normalize(p).op) == KindOf(p.op)
  {
    ComparisonFixed(p);
  }

  /** A widget's statement: the scope, its own predicate, the dashboard's filters and the
      time range, all together, unless it is a bare top-level "or". */
  lemma WidgetStatementMeans(base: seq<Atom>, d: Dataset, where: Option<Predicate>, f: Filters, time: seq<Atom>,
                             fields: Dialect, db: Db, ok: Comparison -> bool)
    requires base != [] && WidgetWhere(d, where, f).Some? && Valid(WidgetWhere(d, where, f).value, ok)
    requires var q := Query(base, Some(Normalize(WidgetWhere(d, where, f).value)), time);
             !TopLevelOr(q.where) && Assemble(q, fields).Some?
    ensures var q := Query(base, Some(Normalize(WidgetWhere(d, where, f).value)), time);
            var s, row := Assemble(q, fields).value, RowOf(fields, db);
            Meaning(s.text, s.args, db) == Some(Both(AllOf(base, db),
                      Both(Both(EvalWhere(where, row),
                                Both(Asks(d, f.environment, "environment", row),
                                     Both(Asks(d, f.release, "release", row),
                                          Asks(d, f.transaction, "transaction", row)))),
                           AllOf(time, db))))
  {
    var p := WidgetWhere(d, where, f).value;
    var q := Query(base, Some(Normalize(p)), time);
    var row := RowOf(fields, db);
    NormalizeIsNormal(p);
    NormalizeKeepsMeaning(p, row, ok);
    AssembledMeans(q, fields, db, ok);
    WidgetQueryMeans(d, where, f, row);
  }
}
