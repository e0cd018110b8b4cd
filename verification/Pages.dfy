/** Cutting a list into consecutive pages. */
module Pages {

  function Concat<T>(pages: seq<seq<T>>): seq<T> {
    if pages == [] then [] else pages[0] + Concat(pages[1..])
  }

  /** The pages from `offset` on: full pages, then what is left. */
  function Cut<T>(offset: nat, limit: nat, table: seq<T>): seq<seq<T>>
    requires limit > 0 && offset <= |table|
    decreases |table| - offset
  {
    if offset + limit < |table|
    then [table[offset..offset + limit]] + Cut(offset + limit, limit, table)
    else [table[offset..]]
  }

  lemma ConcatCons<T>(page: seq<T>, rest: seq<seq<T>>)
    ensures Concat([page] + rest) == page + Concat(rest)
  {
    assert ([page] + rest)[1..] == rest;
  }

  /** The pages put together are the list from `offset` on; all but the last are full. */
  lemma {:induction false} CutIsExact<T>(offset: nat, limit: nat, table: seq<T>)
    requires limit > 0 && offset <= |table|
    ensures var pages := Cut(offset, limit, table);
            && Concat(pages) == table[offset..]
            && |pages| > 0 && |pages[|pages| - 1]| <= limit
            && (forall i :: 0 <= i < |pages| - 1 ==> |pages[i]| == limit)
    decreases |table| - offset
  {
    if offset + limit < |table| {
      CutIsExact(offset + limit, limit, table);
      ConcatCons(table[offset..offset + limit], Cut(offset + limit, limit, table));
      assert table[offset..offset + limit] + table[offset + limit..] == table[offset..];
    } else {
      ConcatCons(table[offset..], []);
    }
  }
}
