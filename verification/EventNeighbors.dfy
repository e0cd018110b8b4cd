/** Previous and next event inside a group (eventNeighborIDs in internal/api/events.go):
    two ordered LIMIT 1 sub-queries over (ingested_at, event_id). */
module EventNeighbors {
  import opened Options
  import opened Text

  datatype Row = Row(projectId: string, groupId: string, ingestedAt: string, eventId: string)

  /** `a` was ingested after `b`; equal times are ordered by event id. */
  predicate Newer(a: Row, b: Row) {
    Less(b.ingestedAt, a.ingestedAt) || (a.ingestedAt == b.ingestedAt && Less(b.eventId, a.eventId))
  }

  predicate SameGroup(a: Row, b: Row) {
    a.projectId == b.projectId && a.groupId == b.groupId
  }

  /** SELECT ... WHERE newer ORDER BY ingested_at ASC, event_id ASC LIMIT 1. */
  function Previous(table: seq<Row>, e: Row): Option<Row> {
    if table == [] then None
    else
      var best, x := Previous(table[..|table| - 1], e), table[|table| - 1];
      if SameGroup(x, e) && Newer(x, e) && (best.None? || Newer(best.value, x)) then Some(x) else best
  }

  /** SELECT ... WHERE older ORDER BY ingested_at DESC, event_id DESC LIMIT 1. */
  function Next(table: seq<Row>, e: Row): Option<Row> {
    if table == [] then None
    else
      var best, x := Next(table[..|table| - 1], e), table[|table| - 1];
      if SameGroup(x, e) && Newer(e, x) && (best.None? || Newer(x, best.value)) then Some(x) else best
  }

  function IdOrEmpty(r: Option<Row>): string {
    match r
    case None => ""
    case Some(row) => row.eventId
  }

  /** Empty arguments and missing neighbours both read as "". */
  function NeighborIds(table: seq<Row>, e: Row): (string, string) {
    if e.projectId == "" || e.groupId == "" || e.eventId == "" || e.ingestedAt == "" then ("", "")
    else (IdOrEmpty(Previous(table, e)), IdOrEmpty(Next(table, e)))
  }

  // ----- the order

  lemma NewerTotal(a: Row, b: Row)
    ensures !Newer(a, a) && !(Newer(a, b) && Newer(b, a))
    ensures a.eventId != b.eventId ==> Newer(a, b) || Newer(b, a)
  {
    LessTrichotomy(a.ingestedAt, b.ingestedAt);
    LessTrichotomy(a.eventId, b.eventId);
  }

  lemma NewerTransitive(a: Row, b: Row, c: Row)
    requires Newer(a, b) && Newer(b, c)
    ensures Newer(a, c)
  {
    if Less(b.ingestedAt, a.ingestedAt) && Less(c.ingestedAt, b.ingestedAt) {
      LessTransitive(c.ingestedAt, b.ingestedAt, a.ingestedAt);
    } else if a.ingestedAt == b.ingestedAt == c.ingestedAt && Less(b.eventId, a.eventId) && Less(c.eventId, b.eventId) {
      LessTransitive(c.eventId, b.eventId, a.eventId);
    }
  }

  // ----- what the queries return

  /** Event ids identify the rows of a group. */
  predicate UniqueIds(table: seq<Row>) {
    forall i, j :: 0 <= i < j < |table| && SameGroup(table[i], table[j]) ==> table[i].eventId != table[j].eventId
  }

  predicate NoEmptyKeys(table: seq<Row>) {
    forall i :: 0 <= i < |table| ==>
      table[i].projectId != "" && table[i].groupId != "" && table[i].eventId != "" && table[i].ingestedAt != ""
  }

  /** The previous event is newer, and no event of the group lies strictly between. */
  lemma {:induction false} PreviousIsAdjacent(table: seq<Row>, e: Row)
    requires UniqueIds(table)
    ensures match Previous(table, e)
            case None => forall i :: 0 <= i < |table| && SameGroup(table[i], e) ==> !Newer(table[i], e)
            case Some(p) =>
              && p in table && SameGroup(p, e) && Newer(p, e)
              && forall i :: 0 <= i < |table| && SameGroup(table[i], e) && Newer(table[i], e) ==>
                   table[i] == p || Newer(table[i], p)
  {
    if table != [] {
      var init, x := table[..|table| - 1], table[|table| - 1];
      PreviousIsAdjacent(init, e);
      var best := Previous(init, e);
      if best.Some? && SameGroup(x, e) && Newer(x, e) {
        NewerTotal(best.value, x);
        LastIdDiffers(table, best.value);
        forall i | 0 <= i < |init| && SameGroup(init[i], e) && Newer(init[i], e)
          ensures Newer(best.value, x) ==> Newer(init[i], x)
        {
          if Newer(best.value, x) && init[i] != best.value {
            NewerTransitive(init[i], best.value, x);
          }
        }
      }
    }
  }

  lemma LastIdDiffers(table: seq<Row>, r: Row)
    requires UniqueIds(table) && table != [] && r in table[..|table| - 1] && SameGroup(r, table[|table| - 1])
    ensures r.eventId != table[|table| - 1].eventId
  {
  }

  lemma {:induction false} NextIsAdjacent(table: seq<Row>, e: Row)
    requires UniqueIds(table)
    ensures match Next(table, e)
            case None => forall i :: 0 <= i < |table| && SameGroup(table[i], e) ==> !Newer(e, table[i])
            case Some(n) =>
              && n in table && SameGroup(n, e) && Newer(e, n)
              && forall i :: 0 <= i < |table| && SameGroup(table[i], e) && Newer(e, table[i]) ==>
                   table[i] == n || Newer(n, table[i])
  {
    if table != [] {
      var init, x := table[..|table| - 1], table[|table| - 1];
      NextIsAdjacent(init, e);
      var best := Next(init, e);
      if best.Some? && SameGroup(x, e) && Newer(e, x) {
        NewerTotal(best.value, x);
        LastIdDiffers(table, best.value);
        forall i | 0 <= i < |init| && SameGroup(init[i], e) && Newer(e, init[i])
          ensures Newer(x, best.value) ==> Newer(x, init[i])
        {
          if Newer(x, best.value) && init[i] != best.value {
            NewerTransitive(x, best.value, init[i]);
          }
        }
      }
    }
  }

  /** Previous and next are inverse inside a group, also among equal ingest times. */
  lemma NeighborsAreInverse(table: seq<Row>, e: Row, p: Row)
    requires UniqueIds(table) && e in table && p in table
    ensures Previous(table, e) == Some(p) <==> Next(table, p) == Some(e)
  {
    PreviousIsAdjacent(table, e);
    NextIsAdjacent(table, p);
    var i :| 0 <= i < |table| && table[i] == e;
    var j :| 0 <= j < |table| && table[j] == p;
    if Previous(table, e) == Some(p) {
      assert Next(table, p).Some?;
      var n := Next(table, p).value;
      if n != e {
        var k :| 0 <= k < |table| && table[k] == n;
        NewerTotal(n, p);
      }
    }
    if Next(table, p) == Some(e) {
      assert Previous(table, e).Some?;
      var q := Previous(table, e).value;
      if q != p {
        var k :| 0 <= k < |table| && table[k] == q;
        NewerTotal(q, e);
      }
    }
  }

  /** The same, as the API shows it: the ids "" aside, following one link and then the
      other leads back to the event. */
  lemma LinksLeadBack(table: seq<Row>, e: Row)
    requires UniqueIds(table) && NoEmptyKeys(table) && e in table
    ensures Previous(table, e).Some? ==> NeighborIds(table, Previous(table, e).value).1 == e.eventId
    ensures Next(table, e).Some? ==> NeighborIds(table, Next(table, e).value).0 == e.eventId
    ensures NeighborIds(table, e).0 == "" <==> Previous(table, e).None?
    ensures NeighborIds(table, e).1 == "" <==> Next(table, e).None?
  {
    PreviousIsAdjacent(table, e);
    NextIsAdjacent(table, e);
    if Previous(table, e).Some? {
      NeighborsAreInverse(table, e, Previous(table, e).value);
    }
    if Next(table, e).Some? {
      NeighborsAreInverse(table, Next(table, e).value, e);
    }
  }

  // ----- walking a group

  ghost function OlderRows(table: seq<Row>, e: Row): set<Row> {
    set i | 0 <= i < |table| && SameGroup(table[i], e) && Newer(e, table[i]) :: table[i]
  }

  lemma OlderShrinks(table: seq<Row>, e: Row)
    requires UniqueIds(table) && Next(table, e).Some?
    ensures OlderRows(table, e) == OlderRows(table, Next(table, e).value) + {Next(table, e).value}
    ensures Next(table, e).value !in OlderRows(table, Next(table, e).value)
  {
    NextIsAdjacent(table, e);
    var n := Next(table, e).value;
    NewerTotal(n, n);
    var k :| 0 <= k < |table| && table[k] == n;
    forall i | 0 <= i < |table| && SameGroup(table[i], e)
      ensures Newer(e, table[i]) <==> table[i] == n || Newer(n, table[i])
    {
      if Newer(n, table[i]) {
        NewerTransitive(e, n, table[i]);
      }
    }
  }

  /** The events shown by following "next" from `e`. */
  ghost function Walk(table: seq<Row>, e: Row): seq<Row>
    requires UniqueIds(table)
    decreases OlderRows(table, e)
  {
    if Next(table, e).None? then [e]
    else
      OlderShrinks(table, e);
      [e] + Walk(table, Next(table, e).value)
  }

  predicate Distinct(s: seq<Row>) {
    forall i, j :: 0 <= i < j < |s| ==> s[i] != s[j]
  }

  lemma {:induction false} WalkVisits(table: seq<Row>, e: Row)
    requires UniqueIds(table)
    ensures Distinct(Walk(table, e))
    ensures forall r :: r in Walk(table, e) <==> r == e || r in OlderRows(table, e)
    decreases OlderRows(table, e)
  {
    if Next(table, e).None? {
      NextIsAdjacent(table, e);
    } else {
      OlderShrinks(table, e);
      var n := Next(table, e).value;
      WalkVisits(table, n);
      NextIsAdjacent(table, e);
      NewerTotal(e, e);
      assert e !in OlderRows(table, e);
    }
  }

  /** From the newest event of a group, "next" visits every event of the group exactly once. */
  lemma WalkVisitsGroup(table: seq<Row>, e: Row)
    requires UniqueIds(table) && e in table && Previous(table, e).None?
    ensures Distinct(Walk(table, e))
    ensures forall r :: r in Walk(table, e) <==> r in table && SameGroup(r, e)
  {
    WalkVisits(table, e);
    PreviousIsAdjacent(table, e);
    var k :| 0 <= k < |table| && table[k] == e;
    forall r
      ensures r in Walk(table, e) <==> r in table && SameGroup(r, e)
    {
      if r in table && SameGroup(r, e) && r != e {
        var i :| 0 <= i < |table| && table[i] == r;
        assert r.eventId != e.eventId;
        NewerTotal(r, e);
      }
    }
  }

  /** The previous event was ingested later and the next one earlier; among equal times the
      previous has the larger id and the next the smaller one. */
  lemma NeighborsInTime(table: seq<Row>, e: Row)
    requires UniqueIds(table)
    ensures Previous(table, e).Some? ==>
              var p := Previous(table, e).value;
              Less(e.ingestedAt, p.ingestedAt) || (e.ingestedAt == p.ingestedAt && Less(e.eventId, p.eventId))
    ensures Next(table, e).Some? ==>
              var n := Next(table, e).value;
              Less(n.ingestedAt, e.ingestedAt) || (e.ingestedAt == n.ingestedAt && Less(n.eventId, e.eventId))
  {
    PreviousIsAdjacent(table, e);
    NextIsAdjacent(table, e);
  }
}
