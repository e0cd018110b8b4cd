/** Cursor pagination of internal/api/api.go: the cursor string, the in-memory pager,
    and the pager that probes the database for one row more than the page. */
module Pagination {
  import opened Decimal
  import opened Options
  import opened Pages
  import opened Text

  const PAGE_SIZE: nat := 100

  // ----- the cursor string

  /** strings.SplitN(s, c, n): at most n parts, the last keeps the remaining separators. */
  function SplitN(s: string, c: char, n: nat): seq<string> {
    var i := IndexOf(s, c);
    if n <= 1 || i == |s| then [s] else [s[..i]] + SplitN(s[i + 1..], c, n - 1)
  }

  function Positive(s: string): nat {
    match Atoi(s)
    case Some(n) => if n > 0 then n else 0
    case None => 0
  }

  /** The offset in "ts:offset:isPrev", else the plain integer, else 0. */
  function ParseCursor(raw: string): nat {
    if raw == "" then 0
    else
      var parts := SplitN(raw, ':', 3);
      if |parts| == 3 && Positive(parts[1]) > 0 then Positive(parts[1]) else Positive(raw)
  }

  function FormatCursor(offset: int, previous: bool): string {
    "0:" + Itoa(if offset < 0 then 0 else offset) + (if previous then ":1" else ":0")
  }

  lemma SplitCompound(a: string, b: string, t: string)
    requires ':' !in a && ':' !in b
    ensures SplitN(a + ":" + b + ":" + t, ':', 3) == [a, b, t]
  {
    var s, u := a + ":" + b + ":" + t, b + ":" + t;
    assert s[..|a|] == a && s[|a|] == ':' && s[|a| + 1..] == u;
    IndexOfFirst(s, ':', |a|);
    assert u[..|b|] == b && u[|b|] == ':' && u[|b| + 1..] == t;
    IndexOfFirst(u, ':', |b|);
    assert SplitN(u, ':', 2) == [b] + SplitN(t, ':', 1);
  }

  lemma DigitsHaveNoColon(s: string)
    requires AllDigits(s)
    ensures ':' !in s
  {
  }

  lemma FormatSplits(n: nat, previous: bool)
    ensures SplitN(FormatCursor(n, previous), ':', 3) == ["0", Itoa(n), if previous then "1" else "0"]
  {
    ItoaDigits(n);
    DigitsHaveNoColon(Itoa(n));
    var flag := if previous then "1" else "0";
    assert FormatCursor(n, previous) == "0" + ":" + Itoa(n) + ":" + flag;
    SplitCompound("0", Itoa(n), flag);
  }

  lemma FormatIsNotPlain(n: nat, previous: bool)
    ensures Positive(FormatCursor(n, previous)) == 0
  {
    assert !IsDigit(FormatCursor(n, previous)[1]);
  }

  /** A printed cursor parses back to its offset, whichever direction it points. */
  lemma ParseFormat(n: nat, previous: bool)
    requires n <= MAX_INT
    ensures ParseCursor(FormatCursor(n, previous)) == n
  {
    AtoiItoa(n);
    FormatSplits(n, previous);
    FormatIsNotPlain(n, previous);
  }

  /** Legacy cursors, a plain decimal number, parse as well. */
  lemma ParsePlain(n: nat)
    requires n <= MAX_INT
    ensures ParseCursor(Itoa(n)) == n
  {
    ItoaDigits(n);
    AtoiItoa(n);
    DigitsHaveNoColon(Itoa(n));
    IndexOfFirst(Itoa(n), ':', |Itoa(n)|);
    assert Itoa(n)[..|Itoa(n)|] == Itoa(n);
  }

  // ----- the two pagers

  /** What the Link header carries, with empty cursors replaced by offset 0. */
  datatype Links = Links(prevCursor: string, hasPrev: bool, nextCursor: string, hasNext: bool)

  function LinkHeader(prevCursor: string, hasPrev: bool, nextCursor: string, hasNext: bool): Links {
    Links(if prevCursor == "" then FormatCursor(0, true) else prevCursor, hasPrev,
          if nextCursor == "" then FormatCursor(0, false) else nextCursor, hasNext)
  }

  datatype Page<T> = Page(items: seq<T>, links: Links)

  function ClampedMinus(a: int, b: int): nat {
    if a - b < 0 then 0 else a - b
  }

  function PageInMemory<T>(cursor: string, items: seq<T>): Page<T> {
    var offset := ParseCursor(cursor);
    var prevCursor := FormatCursor(ClampedMinus(offset, PAGE_SIZE), true);
    if offset >= |items| then Page([], LinkHeader(prevCursor, offset > 0, "", false))
    else
      var hasNext := offset + PAGE_SIZE < |items|;
      var end := if hasNext then offset + PAGE_SIZE else |items|;
      var nextCursor := if hasNext then FormatCursor(end, false) else "";
      Page(items[offset..end], LinkHeader(prevCursor, offset > 0, nextCursor, hasNext))
  }

  datatype Opts = Opts(offset: nat, limit: nat)

  /** per_page counts only between 1 and 100. */
  function LimitOf(perPage: string): (limit: nat)
    ensures 1 <= limit <= PAGE_SIZE
  {
    var n := Positive(perPage);
    if 0 < n <= PAGE_SIZE then n else PAGE_SIZE
  }

  function ParseOpts(cursor: string, perPage: string): Opts {
    Opts(ParseCursor(cursor), LimitOf(perPage))
  }

  function PageOfRows<T>(rows: seq<T>, opts: Opts): Page<T> {
    var hasNext := |rows| > opts.limit;
    var nextCursor := if hasNext then FormatCursor(opts.offset + opts.limit, false) else "";
    Page(if hasNext then rows[..opts.limit] else rows,
         LinkHeader(FormatCursor(ClampedMinus(opts.offset, opts.limit), true), opts.offset > 0, nextCursor, hasNext))
  }

  /** The rows of `table` that LIMIT limit+1 OFFSET offset returns. */
  function ProbeRows<T>(table: seq<T>, opts: Opts): seq<T> {
    if opts.offset >= |table| then []
    else if opts.offset + opts.limit + 1 <= |table| then table[opts.offset..opts.offset + opts.limit + 1]
    else table[opts.offset..]
  }

  function PageByProbe<T>(cursor: string, limit: nat, table: seq<T>): Page<T> {
    var opts := Opts(ParseCursor(cursor), limit);
    PageOfRows(ProbeRows(table, opts), opts)
  }

  /** A request: both parameters are parsed, the table is probed, the page is cut. */
  function PageOfRequest<T>(cursor: string, perPage: string, table: seq<T>): Page<T> {
    var opts := ParseOpts(cursor, perPage);
    PageOfRows(ProbeRows(table, opts), opts)
  }

  /** The response header that both pagers write. */
  class ResponseWriter {
    var link: Option<Links>

    constructor ()
      ensures link == None
    {
      link := None;
    }

    method SetLinkHeader(prevCursor: string, hasPrev: bool, nextCursor: string, hasNext: bool)
      modifies this
      ensures link == Some(LinkHeader(prevCursor, hasPrev, nextCursor, hasNext))
    {
      var prev, next := prevCursor, nextCursor;
      if prev == "" {
        prev := FormatCursor(0, true);
      }
      if next == "" {
        next := FormatCursor(0, false);
      }
      link := Some(Links(prev, hasPrev, next, hasNext));
    }

    method Paginate<T>(cursor: string, items: seq<T>) returns (page: seq<T>)
      modifies this
      ensures link == Some(PageInMemory(cursor, items).links) && page == PageInMemory(cursor, items).items
    {
      var offset := ParseCursor(cursor);
      var prevOffset := offset - PAGE_SIZE;
      if prevOffset < 0 {
        prevOffset := 0;
      }
      var prevCursor := FormatCursor(prevOffset, true);
      var hasPrev := offset > 0;
      if offset >= |items| {
        SetLinkHeader(prevCursor, hasPrev, "", false);
        return [];
      }
      var end, hasNext := offset + PAGE_SIZE, false;
      if end < |items| {
        hasNext := true;
      } else {
        end := |items|;
      }
      var nextCursor := "";
      if hasNext {
        nextCursor := FormatCursor(end, false);
      }
      SetLinkHeader(prevCursor, hasPrev, nextCursor, hasNext);
      page := items[offset..end];
    }

    method SetPaginationHeaders<T>(rows: seq<T>, opts: Opts) returns (page: seq<T>)
      modifies this
      ensures link == Some(PageOfRows(rows, opts).links) && page == PageOfRows(rows, opts).items
    {
      var hasNext, hasPrev := |rows| > opts.limit, opts.offset > 0;
      page := rows;
      if hasNext {
        page := page[..opts.limit];
      }
      var prevOffset := opts.offset - opts.limit;
      if prevOffset < 0 {
        prevOffset := 0;
      }
      var nextCursor := "";
      if hasNext {
        nextCursor := FormatCursor(opts.offset + opts.limit, false);
      }
      SetLinkHeader(FormatCursor(prevOffset, true), hasPrev, nextCursor, hasNext);
    }
  }

  /** At limit 100 the probing pager returns what the in-memory pager returns:
      the same page, the same flags and the same cursors, for every cursor string. */
  lemma ProbeRefinesInMemory<T>(cursor: string, table: seq<T>)
    ensures PageByProbe(cursor, PAGE_SIZE, table) == PageInMemory(cursor, table)
  {
    var opts := Opts(ParseCursor(cursor), PAGE_SIZE);
    var rows := ProbeRows(table, opts);
    if opts.offset < |table| && |rows| > PAGE_SIZE {
      assert rows[..PAGE_SIZE] == table[opts.offset..opts.offset + PAGE_SIZE];
    }
  }

  /** The page at an offset, read off the table. */
  lemma ProbePageContents<T>(cursor: string, limit: nat, table: seq<T>)
    requires limit > 0
    ensures var p, o := PageByProbe(cursor, limit, table), ParseCursor(cursor);
            && (p.links.hasNext <==> o + limit < |table|)
            && (p.links.hasNext ==>
                  p.items == table[o..o + limit] && p.links.nextCursor == FormatCursor(o + limit, false))
            && (!p.links.hasNext && o <= |table| ==> p.items == table[o..])
            && p.links.prevCursor == FormatCursor(ClampedMinus(o, limit), true)
            && (p.links.hasPrev <==> o > 0)
  {
    var opts := Opts(ParseCursor(cursor), limit);
    var rows := ProbeRows(table, opts);
    if |rows| > limit {
      assert rows[..limit] == table[opts.offset..opts.offset + limit];
    }
  }

  // ----- walking the pages

  /** The pages a client sees by following `next` while the header says results="true". */
  ghost function Walk<T>(cursor: string, limit: nat, table: seq<T>): seq<seq<T>>
    requires limit > 0 && |table| <= MAX_INT
    decreases ClampedMinus(|table|, ParseCursor(cursor))
  {
    var p := PageByProbe(cursor, limit, table);
    ProbePageContents(cursor, limit, table);
    if p.links.hasNext then
      ParseFormat(ParseCursor(cursor) + limit, false);
      [p.items] + Walk(p.links.nextCursor, limit, table)
    else [p.items]
  }

  /** The walk through cursor strings is the arithmetic cut of the table. */
  lemma {:induction false} WalkIsCut<T>(cursor: string, limit: nat, table: seq<T>)
    requires limit > 0 && |table| <= MAX_INT && ParseCursor(cursor) <= |table|
    ensures Walk(cursor, limit, table) == Cut(ParseCursor(cursor), limit, table)
    decreases |table| - ParseCursor(cursor)
  {
    var o, p := ParseCursor(cursor), PageByProbe(cursor, limit, table);
    ProbePageContents(cursor, limit, table);
    if p.links.hasNext {
      ParseFormat(o + limit, false);
      WalkIsCut(p.links.nextCursor, limit, table);
    }
  }

  /** Following `next` from any cursor inside the table yields exactly the rest of the
      table, each page full except possibly the last, and ends. */
  lemma WalkIsExact<T>(cursor: string, limit: nat, table: seq<T>)
    requires limit > 0 && |table| <= MAX_INT && ParseCursor(cursor) <= |table|
    ensures var pages := Walk(cursor, limit, table);
            && Concat(pages) == table[ParseCursor(cursor)..]
            && |pages| > 0 && |pages[|pages| - 1]| <= limit
            && (forall i :: 0 <= i < |pages| - 1 ==> |pages[i]| == limit)
  {
    WalkIsCut(cursor, limit, table);
    CutIsExact(ParseCursor(cursor), limit, table);
  }

  predicate NoLongerThan<T>(pages: seq<seq<T>>, limit: nat) {
    forall i :: 0 <= i < |pages| ==> |pages[i]| <= limit
  }

  /** From the empty cursor the walk yields exactly the table. */
  lemma WalkFromStart<T>(limit: nat, table: seq<T>)
    requires limit > 0 && |table| <= MAX_INT
    ensures Concat(Walk("", limit, table)) == table && NoLongerThan(Walk("", limit, table), limit)
  {
    WalkIsExact("", limit, table);
    assert table[0..] == table;
  }

  /** per_page counts from 1 to 100; anything else means 100. */
  lemma PerPageIs(perPage: string)
    ensures LimitOf(perPage) ==
            match Atoi(perPage)
            case Some(n) => if 1 <= n <= 100 then n else 100
            case None => 100
  {
  }

  lemma PerPageCounts(n: nat)
    requires n <= MAX_INT
    ensures LimitOf(Itoa(n)) == if 1 <= n <= 100 then n else 100
  {
    AtoiItoa(n);
  }

  /** Every request of a client that keeps its per_page parameter is a page of that limit. */
  lemma RequestIsProbe<T>(cursor: string, perPage: string, table: seq<T>)
    ensures PageOfRequest(cursor, perPage, table) == PageByProbe(cursor, LimitOf(perPage), table)
  {
  }

  /** The pages a client sees by repeating its request with each next cursor. */
  ghost function RequestWalk<T>(cursor: string, perPage: string, table: seq<T>): seq<seq<T>>
    requires |table| <= MAX_INT
    decreases ClampedMinus(|table|, ParseCursor(cursor))
  {
    RequestIsProbe(cursor, perPage, table);
    ProbePageContents(cursor, LimitOf(perPage), table);
    var p := PageOfRequest(cursor, perPage, table);
    if p.links.hasNext then
      ParseFormat(ParseCursor(cursor) + LimitOf(perPage), false);
      [p.items] + RequestWalk(p.links.nextCursor, perPage, table)
    else [p.items]
  }

  lemma {:induction false} RequestWalkIsWalk<T>(cursor: string, perPage: string, table: seq<T>)
    requires |table| <= MAX_INT
    ensures RequestWalk(cursor, perPage, table) == Walk(cursor, LimitOf(perPage), table)
    decreases ClampedMinus(|table|, ParseCursor(cursor))
  {
    var limit, p := LimitOf(perPage), PageOfRequest(cursor, perPage, table);
    RequestIsProbe(cursor, perPage, table);
    ProbePageContents(cursor, limit, table);
    if p.links.hasNext {
      ParseFormat(ParseCursor(cursor) + limit, false);
      RequestWalkIsWalk(p.links.nextCursor, perPage, table);
    }
  }

  /** For every per_page string the pages hold at most 100 rows and make up the table. */
  lemma RequestsAreExact<T>(perPage: string, table: seq<T>)
    requires |table| <= MAX_INT
    ensures var pages := RequestWalk("", perPage, table); Concat(pages) == table && NoLongerThan(pages, 100)
  {
    RequestWalkIsWalk("", perPage, table);
    WalkFromStart(LimitOf(perPage), table);
  }

  /** `previous` undoes `next`: the page after any page links back to it, with equal links. */
  lemma PrevUndoesNext<T>(cursor: string, limit: nat, table: seq<T>)
    requires limit > 0 && |table| <= MAX_INT
    ensures var p := PageByProbe(cursor, limit, table);
            p.links.hasNext ==>
              var q := PageByProbe(p.links.nextCursor, limit, table);
              q.links.hasPrev && PageByProbe(q.links.prevCursor, limit, table) == p
  {
    var o, p := ParseCursor(cursor), PageByProbe(cursor, limit, table);
    ProbePageContents(cursor, limit, table);
    if p.links.hasNext {
      ParseFormat(o + limit, false);
      ProbePageContents(p.links.nextCursor, limit, table);
      ParseFormat(o, true);
    }
  }

  /** `next` undoes `previous` exactly from offsets that are at least one page in:
      from a smaller offset `previous` is clamped to 0 and `next` lands on a full page. */
  lemma NextUndoesPrev<T>(cursor: string, limit: nat, table: seq<T>)
    requires limit > 0 && |table| <= MAX_INT
    requires 0 < ParseCursor(cursor) < |table|
    ensures var o, p := ParseCursor(cursor), PageByProbe(cursor, limit, table);
            var q := PageByProbe(p.links.prevCursor, limit, table);
            (q.links.hasNext && ParseCursor(q.links.nextCursor) == o) <==> limit <= o
  {
    var o, p := ParseCursor(cursor), PageByProbe(cursor, limit, table);
    ProbePageContents(cursor, limit, table);
    ParseFormat(ClampedMinus(o, limit), true);
    ProbePageContents(p.links.prevCursor, limit, table);
    if ClampedMinus(o, limit) + limit < |table| {
      ParseFormat(ClampedMinus(o, limit) + limit, false);
    }
  }

  /** From offset 1 with two rows to a page, back and forth ends at offset 2. */
  lemma NextAfterPrevExample()
    ensures var p := PageByProbe(FormatCursor(1, false), 2, [10, 20, 30]);
            var q := PageByProbe(p.links.prevCursor, 2, [10, 20, 30]);
            p.items == [20, 30] && q.items == [10, 20] && q.links.hasNext && ParseCursor(q.links.nextCursor) == 2
  {
    var table := [10, 20, 30];
    ParseFormat(1, false);
    ParseFormat(0, true);
    ParseFormat(2, false);
    ProbePageContents(FormatCursor(1, false), 2, table);
    ProbePageContents(FormatCursor(0, true), 2, table);
  }
}
