/** Cursor pages of the test-result list (paginatePrevent in internal/api/prevent.go),
    with 64-bit wrap-around: a cursor or a limit next to the largest integer makes the
    slice bounds invalid. */
module ResultPaging {
  import opened Decimal
  import opened Options
  import opened Pages
  import opened Text

  datatype PageInfo = PageInfo(hasPrev: bool, hasNext: bool, startCursor: Option<string>, endCursor: Option<string>)
  datatype Outcome<T> = Ok(page: seq<T>, info: PageInfo) | InvalidCursor | OutOfRange

  function Wrap(n: int): int {
    (n + MAX_INT + 1) % (2 * MAX_INT + 2) - MAX_INT - 1
  }

  const NO_INFO := PageInfo(false, false, None, None)

  /** Where the page starts; nothing for an invalid cursor. */
  function StartOf(limit: nat, rawCursor: string, navigation: string): Option<int> {
    var raw := TrimSpace(rawCursor);
    if raw == "" then Some(0)
    else
      match Atoi(raw)
      case None => None
      case Some(cursor) =>
        if cursor < 0 then None
        else if EqualFold(TrimSpace(navigation), "prev") then Some(if cursor - limit < 0 then 0 else cursor - limit)
        else Some(Wrap(cursor + 1))
  }

  /** The page from `start` on. A Go slice expression fails when a bound is negative. */
  function PageFrom<T>(items: seq<T>, limit: nat, start: int): Outcome<T> {
    if start >= |items| then Ok([], PageInfo(|items| > 0, false, None, None))
    else
      var sum := Wrap(start + limit);
      var end := if sum > |items| then |items| else sum;
      if !(0 <= start <= end) then OutOfRange
      else Ok(items[start..end],
              PageInfo(start > 0, end < |items|, Some(Itoa(start)), if end > 0 then Some(Itoa(end - 1)) else None))
  }

  function Paginate<T>(items: seq<T>, limit: nat, rawCursor: string, navigation: string): Outcome<T> {
    if items == [] then Ok([], NO_INFO)
    else
      match StartOf(limit, rawCursor, navigation)
      case None => InvalidCursor
      case Some(start) => PageFrom(items, limit, start)
  }

  lemma WrapFits(n: int)
    ensures -MAX_INT - 1 <= n <= MAX_INT ==> Wrap(n) == n
    ensures MAX_INT < n <= 2 * MAX_INT ==> Wrap(n) < 0
  {
  }

  /** The slice bounds are invalid exactly when an addition overflows: the cursor is the
      largest integer and the page after it is asked for, or the page starts inside the
      list and its start plus the limit exceeds the largest integer. */
  lemma OutOfRangeIff<T>(items: seq<T>, limit: nat, rawCursor: string, navigation: string)
    requires 0 < limit <= MAX_INT && |items| <= MAX_INT
    ensures Paginate(items, limit, rawCursor, navigation).OutOfRange? <==>
            var start := StartOf(limit, rawCursor, navigation);
            items != [] && start.Some? && (start.value < 0 || (start.value < |items| && start.value + limit > MAX_INT))
    ensures var start := StartOf(limit, rawCursor, navigation);
            start.Some? && start.value < 0 <==>
            Atoi(TrimSpace(rawCursor)) == Some(MAX_INT) && !EqualFold(TrimSpace(navigation), "prev")
  {
    var start := StartOf(limit, rawCursor, navigation);
    NextOfCursor(rawCursor);
    if start.Some? {
      if start.value < 0 {
        WrapNegative(start.value, limit);
      } else {
        WrapFits(start.value + limit);
      }
    }
  }

  lemma NextOfCursor(rawCursor: string)
    ensures var c := Atoi(TrimSpace(rawCursor));
            c.Some? ==> c.value <= MAX_INT && TrimSpace(rawCursor) != "" &&
                        (c.value >= 0 ==> Wrap(c.value + 1) == if c.value == MAX_INT then -MAX_INT - 1 else c.value + 1)
  {
  }

  lemma WrapNegative(start: int, limit: nat)
    requires -MAX_INT - 1 <= start < 0 && limit <= MAX_INT
    ensures Wrap(start + limit) == start + limit
  {
  }

  lemma DigitsAreTrimmed(n: nat)
    ensures TrimSpace(Itoa(n)) == Itoa(n)
  {
    ItoaDigits(n);
    var s := Itoa(n);
    assert IsDigit(s[0]) && IsDigit(s[|s| - 1]);
    TrimFixed(s, Space);
  }

  /** The cursors a page hands out lead to the pages right after and right before it. */
  lemma StartOfCursor(n: nat, limit: nat)
    requires n < MAX_INT
    ensures StartOf(limit, Itoa(n), "") == Some(n + 1)
    ensures StartOf(limit, Itoa(n), "prev") == Some(if n - limit < 0 then 0 else n - limit)
  {
    DigitsAreTrimmed(n);
    AtoiItoa(n);
    ItoaDigits(n);
    WrapFits(n + 1);
    NavigationNames();
  }

  lemma NavigationNames()
    ensures TrimSpace("prev") == "prev" && TrimSpace("") == ""
    ensures EqualFold("prev", "prev") && !EqualFold("", "prev")
  {
    TrimFixed("prev", Space);
    assert |ToLower("")| == 0 && |ToLower("prev")| == 4;
  }

  lemma PageFromContents<T>(items: seq<T>, limit: nat, start: nat)
    requires 0 < limit && start < |items| && start + limit <= MAX_INT
    ensures var end := if start + limit < |items| then start + limit else |items|;
            PageFrom(items, limit, start) ==
            Ok(items[start..end], PageInfo(start > 0, end < |items|, Some(Itoa(start)), Some(Itoa(end - 1))))
  {
    WrapFits(start + limit);
  }

  /** Past the largest integer the page has no valid bounds. */
  lemma PageOverflows<T>(items: seq<T>, limit: nat, start: nat)
    requires limit <= MAX_INT && start < |items| <= MAX_INT && start + limit > MAX_INT
    ensures PageFrom(items, limit, start) == OutOfRange
  {
    WrapFits(start + limit);
  }

  /** No page of the walk from `start` overflows. */
  predicate Fits<T>(items: seq<T>, limit: nat, start: nat)
    decreases |items| - start
  {
    && 0 < limit && start < |items| <= MAX_INT && start + limit <= MAX_INT
    && (start + limit < |items| ==> Fits(items, limit, start + limit))
  }

  /** Every limit fits a list that is no longer than one page, and every list fits whose
      length plus the limit is in range. */
  lemma {:induction false} UsuallyFits<T>(items: seq<T>, limit: nat, start: nat)
    requires 0 < limit <= MAX_INT && start < |items| <= MAX_INT
    requires (start == 0 && |items| <= limit) || |items| + limit <= MAX_INT
    ensures Fits(items, limit, start)
    decreases |items| - start
  {
    if start + limit < |items| {
      UsuallyFits(items, limit, start + limit);
    }
  }

  /** Exactly when the walk fits: its last page, the (k+1)-st, ends in range. */
  lemma {:induction false} FitsIff<T>(items: seq<T>, limit: nat, start: nat, k: nat)
    requires 0 < limit && |items| <= MAX_INT
    requires start + k * limit < |items| <= start + (k + 1) * limit
    ensures Fits(items, limit, start) <==> start + (k + 1) * limit <= MAX_INT
    decreases k
  {
    if k > 0 {
      assert (k + 1) * limit == limit + k * limit && k * limit == limit + (k - 1) * limit;
      FitsIff(items, limit, start + limit, k - 1);
    }
  }

  /** The pages a client sees by passing each EndCursor back while there is a next page. */
  ghost function Walk<T>(items: seq<T>, limit: nat, start: nat): seq<seq<T>>
    requires Fits(items, limit, start)
    decreases |items| - start
  {
    PageFromContents(items, limit, start);
    var p := PageFrom(items, limit, start);
    if p.info.hasNext then
      StartOfCursor(start + limit - 1, limit);
      [p.page] + Walk(items, limit, StartOf(limit, p.info.endCursor.value, "").value)
    else [p.page]
  }

  lemma {:induction false} WalkIsCut<T>(items: seq<T>, limit: nat, start: nat)
    requires Fits(items, limit, start)
    ensures Walk(items, limit, start) == Cut(start, limit, items)
    decreases |items| - start
  {
    PageFromContents(items, limit, start);
    if start + limit < |items| {
      StartOfCursor(start + limit - 1, limit);
      WalkIsCut(items, limit, start + limit);
    } else {
      assert items[start..|items|] == items[start..];
    }
  }

  /** From the empty cursor the walk yields exactly the list, in full pages except the last. */
  lemma WalkIsExact<T>(items: seq<T>, limit: nat)
    requires Fits(items, limit, 0)
    ensures Paginate(items, limit, "", "") == PageFrom(items, limit, 0)
    ensures var pages := Walk(items, limit, 0);
            && Concat(pages) == items
            && |pages| > 0 && |pages[|pages| - 1]| <= limit
            && (forall i :: 0 <= i < |pages| - 1 ==> |pages[i]| == limit)
  {
    WalkIsCut(items, limit, 0);
    CutIsExact(0, limit, items);
    NavigationNames();
  }

  lemma NextThenPrev<T>(items: seq<T>, limit: nat, start: nat)
    requires 0 < limit && start + limit < |items| <= MAX_INT
    ensures var q := Paginate(items, limit, Itoa(start + limit - 1), "");
            && (q.Ok? <==> start + 2 * limit <= MAX_INT)
            && (q.Ok? ==> q.info.hasPrev && q.info.startCursor.Some? &&
                          Paginate(items, limit, q.info.startCursor.value, "prev") == PageFrom(items, limit, start))
  {
    NextPage(items, limit, start + limit - 1);
    PageBehind(items, limit, start + limit);
  }

  /** The page after a page is valid exactly when it does not overflow, and then "prev" from
      its StartCursor is the first page again, with the same flags and cursors. */
  lemma PrevUndoesNext<T>(items: seq<T>, limit: nat, start: nat)
    requires 0 < limit && start < |items| <= MAX_INT && start + limit <= MAX_INT
    ensures var p := PageFrom(items, limit, start);
            p.Ok? && (p.info.hasNext ==>
              var q := Paginate(items, limit, p.info.endCursor.value, "");
              && (q.Ok? <==> start + 2 * limit <= MAX_INT)
              && (q.Ok? ==> q.info.hasPrev && q.info.startCursor.Some? &&
                            Paginate(items, limit, q.info.startCursor.value, "prev") == p))
  {
    PageFromContents(items, limit, start);
    if start + limit < |items| {
      NextThenPrev(items, limit, start);
    }
  }

  /** The page at `start`, at least one page in, and what "prev" makes of its StartCursor. */
  lemma PageBehind<T>(items: seq<T>, limit: nat, start: nat)
    requires 0 < limit <= start < |items| <= MAX_INT
    ensures var q := PageFrom(items, limit, start);
            && (q.Ok? <==> start + limit <= MAX_INT)
            && (q.Ok? ==> q.info.hasPrev && q.info.startCursor.Some? &&
                          Paginate(items, limit, q.info.startCursor.value, "prev") ==
                          PageFrom(items, limit, start - limit))
  {
    if start + limit <= MAX_INT {
      PageFromContents(items, limit, start);
      PrevPage(items, limit, start);
    } else {
      PageOverflows(items, limit, start);
    }
  }

  lemma NextPage<T>(items: seq<T>, limit: nat, n: nat)
    requires n < |items| <= MAX_INT
    ensures Paginate(items, limit, Itoa(n), "") == PageFrom(items, limit, n + 1)
  {
    StartOfCursor(n, limit);
  }

  lemma PrevPage<T>(items: seq<T>, limit: nat, n: nat)
    requires n < |items| <= MAX_INT
    ensures Paginate(items, limit, Itoa(n), "prev") == PageFrom(items, limit, if n - limit < 0 then 0 else n - limit)
  {
    StartOfCursor(n, limit);
  }

  /** Going back and forth again returns to the page exactly when it starts at least one
      page in; before that "prev" is cut off at 0 and overlaps the page it came from. */
  lemma NextUndoesPrev<T>(items: seq<T>, limit: nat, start: nat)
    requires 0 < limit && 0 < start < |items| <= MAX_INT && start + limit <= MAX_INT
    ensures var p := PageFrom(items, limit, start);
            && p.Ok? && p.info.startCursor.Some?
            && var q := Paginate(items, limit, p.info.startCursor.value, "prev");
            && q.Ok? && q.info.endCursor.Some?
            && (Paginate(items, limit, q.info.endCursor.value, "") == p <==> limit <= start)
  {
    PageFromContents(items, limit, start);
    var end := ThereAndBack(items, limit, start);
    PagesDiffer(items, limit, start, end);
  }

  lemma ThereAndBack<T>(items: seq<T>, limit: nat, start: nat) returns (end: nat)
    requires 0 < limit && 0 < start < |items| <= MAX_INT && start + limit <= MAX_INT
    ensures end <= |items| && (end == start <==> limit <= start)
    ensures var q := Paginate(items, limit, Itoa(start), "prev");
            && q.Ok? && q.info.endCursor.Some?
            && Paginate(items, limit, q.info.endCursor.value, "") == PageFrom(items, limit, end)
  {
    var back := if start - limit < 0 then 0 else start - limit;
    PrevPage(items, limit, start);
    PageFromContents(items, limit, back);
    end := if back + limit < |items| then back + limit else |items|;
    NextPage(items, limit, end - 1);
  }

  /** Pages that start at different places differ, if only in their cursors. */
  lemma PagesDiffer<T>(items: seq<T>, limit: nat, a: nat, b: nat)
    requires 0 < limit && a < |items| <= MAX_INT && b <= |items| && a + limit <= MAX_INT
    ensures PageFrom(items, limit, a) == PageFrom(items, limit, b) <==> a == b
  {
    PageFromContents(items, limit, a);
    if b < |items| {
      if b + limit <= MAX_INT {
        PageFromContents(items, limit, b);
        ItoaInjective(a, b);
      } else {
        PageOverflows(items, limit, b);
      }
    }
  }

  lemma ItoaInjective(a: nat, b: nat)
    ensures Itoa(a) == Itoa(b) ==> a == b
  {
    ItoaDigits(a);
    ItoaDigits(b);
  }

  // ----- where the laws end

  /** The cursor just before the wrap-around. */
  lemma OutOfRangeExample<T>(x: T)
    ensures Paginate([x], 1, Itoa(MAX_INT), "").OutOfRange?
  {
    DigitsAreTrimmed(MAX_INT);
    AtoiItoa(MAX_INT);
    ItoaDigits(MAX_INT);
    NavigationNames();
    OutOfRangeIff([x], 1, Itoa(MAX_INT), "");
  }

  /** From the second of three rows, two to a page, back and forth ends at the third. */
  lemma NextAfterPrevExample()
    ensures var p := PageFrom([10, 20, 30], 2, 1);
            var q := Paginate([10, 20, 30], 2, Itoa(1), "prev");
            && p.Ok? && p.page == [20, 30] && q.Ok? && q.page == [10, 20]
            && Paginate([10, 20, 30], 2, Itoa(1), "") == PageFrom([10, 20, 30], 2, 2)
            && q.info.endCursor == Some(Itoa(1)) && PageFrom([10, 20, 30], 2, 2) != p
  {
    var items := [10, 20, 30];
    PageFromContents(items, 2, 1);
    PageFromContents(items, 2, 0);
    PrevPage(items, 2, 1);
    NextPage(items, 2, 1);
    PagesDiffer(items, 2, 1, 2);
  }

  /** A cursor is refused exactly when it is not blank and not a non-negative number. */
  lemma InvalidCursorIff<T>(items: seq<T>, limit: nat, rawCursor: string, navigation: string)
    ensures Paginate(items, limit, rawCursor, navigation).InvalidCursor? <==>
            var raw := TrimSpace(rawCursor);
            items != [] && raw != "" && (Atoi(raw).None? || Atoi(raw).value < 0)
  {
  }

  /** Past the end there is an empty page, without cursors, and a previous page; an empty list
      has neither. */
  lemma PastTheEnd<T>(items: seq<T>, limit: nat, start: nat)
    requires start >= |items|
    ensures PageFrom(items, limit, start) == Ok([], PageInfo(items != [], false, None, None))
    ensures Paginate<T>([], limit, "", "") == Ok([], PageInfo(false, false, None, None))
  {
  }
}
