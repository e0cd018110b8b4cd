/** LIKE patterns with escaped wildcards (internal/sqlutil/helpers.go), matched without
    regard to ASCII letter case as SQLite's LIKE and Postgres' ILIKE do. */
module LikePatterns {
  import opened Text

  /** strings.ReplaceAll of a single character. */
  function ReplaceChar(s: string, c: char, to: string): string {
    if s == [] then [] else (if s[0] == c then to else [s[0]]) + ReplaceChar(s[1..], c, to)
  }

  function EscapeLike(s: string): string {
    ReplaceChar(ReplaceChar(ReplaceChar(s, '\\', ['\\', '\\']), '%', ['\\', '%']), '_', ['\\', '_'])
  }

  /** `pattern` matches the whole of `s`, with backslash as the escape character. */
  predicate Like(pattern: string, s: string)
    decreases |pattern| + |s|
  {
    if pattern == [] then s == []
    else if pattern[0] == '%' then Like(pattern[1..], s) || (s != [] && Like(pattern, s[1..]))
    else if pattern[0] == '_' then s != [] && Like(pattern[1..], s[1..])
    else if pattern[0] == '\\' then
      |pattern| > 1 && s != [] && LowerChar(s[0]) == LowerChar(pattern[1]) && Like(pattern[2..], s[1..])
    else s != [] && LowerChar(s[0]) == LowerChar(pattern[0]) && Like(pattern[1..], s[1..])
  }

  /** What a character becomes. */
  function EscapeChar(c: char): string {
    if c == '\\' || c == '%' || c == '_' then ['\\', c] else [c]
  }

  lemma {:induction false} ReplaceConcat(a: string, b: string, c: char, to: string)
    ensures ReplaceChar(a + b, c, to) == ReplaceChar(a, c, to) + ReplaceChar(b, c, to)
  {
    if a == [] {
      assert a + b == b;
    } else {
      assert (a + b)[1..] == a[1..] + b;
      ReplaceConcat(a[1..], b, c, to);
    }
  }

  lemma ReplaceOne(x: char, c: char, to: string)
    ensures ReplaceChar([x], c, to) == if x == c then to else [x]
  {
    assert [x][1..] == [];
  }

  lemma ReplaceTwo(x: char, y: char, c: char, to: string)
    ensures ReplaceChar([x, y], c, to) == (if x == c then to else [x]) + (if y == c then to else [y])
  {
    assert [x, y] == [x] + [y];
    ReplaceConcat([x], [y], c, to);
    ReplaceOne(x, c, to);
    ReplaceOne(y, c, to);
  }

  /** The three passes do not disturb each other's output. */
  lemma EscapeOne(c: char)
    ensures EscapeLike([c]) == EscapeChar(c)
  {
    ReplaceOne(c, '\\', ['\\', '\\']);
    ReplaceOne(c, '%', ['\\', '%']);
    ReplaceOne(c, '_', ['\\', '_']);
    ReplaceTwo('\\', '\\', '%', ['\\', '%']);
    ReplaceTwo('\\', '\\', '_', ['\\', '_']);
    ReplaceTwo('\\', '%', '_', ['\\', '_']);
  }

  lemma EscapeCons(s: string)
    requires s != []
    ensures EscapeLike(s) == EscapeChar(s[0]) + EscapeLike(s[1..])
  {
    assert s == [s[0]] + s[1..];
    var a1, b1 := ReplaceChar([s[0]], '\\', ['\\', '\\']), ReplaceChar(s[1..], '\\', ['\\', '\\']);
    var a2, b2 := ReplaceChar(a1, '%', ['\\', '%']), ReplaceChar(b1, '%', ['\\', '%']);
    ReplaceConcat([s[0]], s[1..], '\\', ['\\', '\\']);
    ReplaceConcat(a1, b1, '%', ['\\', '%']);
    ReplaceConcat(a2, b2, '_', ['\\', '_']);
    EscapeOne(s[0]);
  }

  lemma LikeChar(c: char, rest: string, s: string)
    ensures Like(EscapeChar(c) + rest, s) <==> s != [] && LowerChar(s[0]) == LowerChar(c) && Like(rest, s[1..])
  {
    var p := EscapeChar(c) + rest;
    if |EscapeChar(c)| == 2 {
      assert p[0] == '\\' && p[1] == c && p[2..] == rest;
    } else {
      assert p[0] == c && p[1..] == rest;
    }
  }

  /** `s` starts with `v`, up to letter case. */
  predicate Starts(s: string, v: string) {
    |v| <= |s| && EqualFold(s[..|v|], v)
  }

  lemma StartsCons(s: string, v: string)
    requires v != []
    ensures Starts(s, v) <==> s != [] && LowerChar(s[0]) == LowerChar(v[0]) && Starts(s[1..], v[1..])
  {
    if s != [] && |v| <= |s| {
      var a, b := ToLower(s[..|v|]), ToLower(v);
      var a', b' := ToLower(s[1..][..|v| - 1]), ToLower(v[1..]);
      assert a' == a[1..] && b' == b[1..];
      assert a == [LowerChar(s[0])] + a' && b == [LowerChar(v[0])] + b';
    }
  }

  /** An escaped text in a pattern matches exactly itself, wildcards included. */
  lemma {:induction false} EscapedMatchesItself(v: string, rest: string, s: string)
    ensures Like(EscapeLike(v) + rest, s) <==> Starts(s, v) && Like(rest, s[|v|..])
    decreases |v|
  {
    if v == [] {
      assert EscapeLike(v) + rest == rest;
      assert s[..0] == v;
      assert s[0..] == s;
    } else {
      EscapeCons(v);
      assert EscapeLike(v) + rest == EscapeChar(v[0]) + (EscapeLike(v[1..]) + rest);
      LikeChar(v[0], EscapeLike(v[1..]) + rest, s);
      StartsCons(s, v);
      if s != [] {
        EscapedMatchesItself(v[1..], rest, s[1..]);
        if |v| <= |s| {
          assert s[1..][|v| - 1..] == s[|v|..];
        }
      }
    }
  }

  lemma {:induction false} AnyMatchesAll(s: string)
    ensures Like("%", s)
    decreases |s|
  {
    assert "%"[1..] == [];
    if s != [] {
      AnyMatchesAll(s[1..]);
    }
  }

  /** "prefix": the value starts with the text, whatever characters it holds. */
  lemma PrefixMeans(v: string, s: string)
    ensures Like(EscapeLike(v) + "%", s) <==> Starts(s, v)
  {
    EscapedMatchesItself(v, "%", s);
    if |v| <= |s| {
      AnyMatchesAll(s[|v|..]);
    }
  }

  lemma {:induction false} LeadingAny(p: string, s: string)
    ensures Like("%" + p, s) <==> exists i :: 0 <= i <= |s| && Like(p, s[i..])
    decreases |s|
  {
    var q := "%" + p;
    assert q[0] == '%' && q[1..] == p;
    assert s[0..] == s;
    if s != [] {
      LeadingAny(p, s[1..]);
      forall i | 0 <= i <= |s[1..]|
        ensures s[1..][i..] == s[i + 1..]
      {
      }
      if Like(q, s[1..]) {
        var i :| 0 <= i <= |s[1..]| && Like(p, s[1..][i..]);
        assert Like(p, s[i + 1..]);
      }
      if i :| 0 <= i <= |s| && Like(p, s[i..]) {
        if i > 0 {
          assert s[1..][i - 1..] == s[i..];
        }
      }
    }
  }

  /** "contains": the text occurs somewhere in the value, whatever characters it holds. */
  lemma ContainsMeans(v: string, s: string)
    ensures Like("%" + EscapeLike(v) + "%", s) <==> exists i :: 0 <= i <= |s| && Starts(s[i..], v)
  {
    var p := EscapeLike(v) + "%";
    assert "%" + EscapeLike(v) + "%" == "%" + p;
    LeadingAny(p, s);
    forall i | 0 <= i <= |s|
      ensures Like(p, s[i..]) <==> Starts(s[i..], v)
    {
      PrefixMeans(v, s[i..]);
    }
  }
}
