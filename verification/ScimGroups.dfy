/** SCIM group PATCH (internal/api/scim.go; section 3.5.2 of RFC 7644): a list of operations
    on a team's members, carried out by store calls that may fail, with no roll-back. */
module ScimGroups {
  import opened Options
  import opened Text

  // ----- what an operation asks for

  datatype Entry = Member(id: string) | Malformed
  datatype Value = Str(s: string) | List(entries: seq<Entry>) | Other
  datatype Op = Op(op: string, path: string, value: Value)

  datatype Action =
    | Rename(name: string)
    | Replace(ids: seq<string>)
    | Add(ids: seq<string>)
    | Remove(id: string)
    | Ignore
    | BadMembers

  /** The trimmed member ids, or nothing when an entry has no id. */
  function MemberIds(value: Value): Option<seq<string>> {
    match value
    case List(entries) => EntryIds(entries)
    case _ => None
  }

  function EntryIds(entries: seq<Entry>): Option<seq<string>> {
    if entries == [] then Some([])
    else
      var e, rest := entries[0], EntryIds(entries[1..]);
      if e.Malformed? || TrimSpace(e.id) == "" || rest.None? then None
      else Some([TrimSpace(e.id)] + rest.value)
  }

  predicate IsQuote(c: char) {
    c == '"' || c == '\''
  }

  function UpToQuote(s: string): string {
    if s == [] || IsQuote(s[0]) then [] else [s[0]] + UpToQuote(s[1..])
  }

  function From(s: string, n: nat): string {
    if n <= |s| then s[n..] else []
  }

  /** The text after the first double quote, or else the first single quote, up to the
      next quote of either kind. */
  function MemberFilter(path: string): string {
    var start := if '"' in path then IndexOf(path, '"') else IndexOf(path, '\'');
    UpToQuote(From(path, start + 1))
  }

  function ActionOf(op: Op): Action {
    var kind := ToLower(TrimSpace(op.op));
    ActionFor(if kind == "" then "replace" else kind, ToLower(TrimSpace(op.path)), op.value)
  }

  function ActionFor(kind: string, path: string, value: Value): Action {
    if (kind == "replace" || kind == "add") && path == "displayname" then
      if value.Str? && TrimSpace(value.s) != "" then Rename(TrimSpace(value.s)) else Ignore
    else if (kind == "replace" || kind == "add") && path == "members" then
      match MemberIds(value)
      case None => BadMembers
      case Some(ids) => if kind == "replace" then Replace(ids) else Add(ids)
    else if kind == "remove" && "members" <= path then
      if MemberFilter(path) != "" then Remove(MemberFilter(path)) else Ignore
    else Ignore
  }

  // ----- what the members should be

  function Elements(ids: seq<string>): set<string> {
    set i | 0 <= i < |ids| :: ids[i]
  }

  function Wanted(a: Action, members: set<string>): set<string> {
    match a
    case Replace(ids) => Elements(ids)
    case Add(ids) => members + Elements(ids)
    case Remove(id) => members - {id}
    case _ => members
  }

  /** Nobody in both sets is missing and nobody outside both is present. */
  predicate Between(a: set<string>, h: set<string>, b: set<string>) {
    a * b <= h <= a + b
  }

  /** Users named by the rows read, and users named by two rows. */
  function Listed(rows: seq<Option<string>>): set<string> {
    set i | 0 <= i < |rows| && rows[i].Some? :: rows[i].value
  }

  function Repeated(rows: seq<Option<string>>): set<string> {
    if rows == [] then {}
    else
      var init, r := rows[..|rows| - 1], rows[|rows| - 1];
      Repeated(init) + if r.Some? && r.value in Listed(init) then {r.value} else {}
  }

  lemma ListedSnoc(rows: seq<Option<string>>, r: Option<string>)
    ensures Listed(rows + [r]) == Listed(rows) + if r.Some? then {r.value} else {}
    ensures Repeated(rows + [r]) == Repeated(rows) + if r.Some? && r.value in Listed(rows) then {r.value} else {}
  {
    var s := rows + [r];
    assert s[..|rows|] == rows;
    assert forall i :: 0 <= i < |rows| ==> s[i] == rows[i];
    assert s[|rows|] == r;
    forall u | u in Listed(s)
      ensures u in Listed(rows) + if r.Some? then {r.value} else {}
    {
      var i :| 0 <= i < |s| && s[i].Some? && s[i].value == u;
      if i < |rows| {
        assert rows[i].value == u;
      }
    }
    forall u | u in Listed(rows)
      ensures u in Listed(s)
    {
      var i :| 0 <= i < |rows| && rows[i].Some? && rows[i].value == u;
      assert s[i].value == u;
    }
  }

  /** Who is left of `members` after the rows were gone through. */
  function Staying(members: set<string>, rows: seq<Option<string>>, wanted: set<string>): set<string> {
    members - (Listed(rows) - wanted) - Repeated(rows)
  }

  /** One row: a user still to be ticked off stays, anybody else named goes. */
  lemma StayingSnoc(members: set<string>, rows: seq<Option<string>>, r: Option<string>, wanted: set<string>)
    ensures r.None? ==> Staying(members, rows + [r], wanted) == Staying(members, rows, wanted)
    ensures r.None? ==> Listed(rows + [r]) == Listed(rows)
    ensures r.Some? ==> wanted - Listed(rows + [r]) == wanted - Listed(rows) - {r.value}
    ensures r.Some? ==>
              Staying(members, rows + [r], wanted) ==
              Staying(members, rows, wanted) - if r.value in wanted - Listed(rows) then {} else {r.value}
  {
    ListedSnoc(rows, r);
    RepeatedAreListed(rows);
  }

  lemma StayingFalls(members: set<string>, rows: seq<Option<string>>, wanted: set<string>, n: nat)
    requires n <= |rows|
    ensures Staying(members, rows, wanted) <= Staying(members, rows[..n], wanted)
  {
    PrefixListed(rows, n);
  }

  lemma {:induction false} RepeatedAreListed(rows: seq<Option<string>>)
    ensures Repeated(rows) <= Listed(rows)
  {
    if rows != [] {
      var init, r := rows[..|rows| - 1], rows[|rows| - 1];
      RepeatedAreListed(init);
      assert init + [r] == rows;
      ListedSnoc(init, r);
    }
  }

  // ----- the store and the handler

  datatype Added = Done | NotFound | Error

  class Team {
    const users: set<string>
    const fails: nat -> bool
    var calls: nat
    var name: string
    var members: set<string>
    ghost var history: seq<set<string>>

    constructor (users: set<string>, fails: nat -> bool, members: set<string>)
      ensures this.members == members && history == [members] && this.users == users && this.fails == fails
    {
      this.users, this.fails, this.members, this.name := users, fails, members, "";
      calls, history := 0, [members];
    }

    /** History records the members after every store call. */
    ghost predicate Valid()
      reads this
    {
      history != [] && history[|history| - 1] == members
    }

    /** No store call fails. */
    ghost predicate Sound() {
      forall n :: !fails(n)
    }

    method RemoveTeamMember(u: string) returns (ok: bool)
      requires Valid()
      modifies this
      ensures Sound() ==> ok
      ensures Valid() && name == old(name) && history == old(history) + [members]
      ensures members == if ok then old(members) - {u} else old(members)
    {
      ok := !fails(calls);
      calls := calls + 1;
      if ok {
        members := members - {u};
      }
      history := history + [members];
    }

    method AddTeamMember(u: string) returns (r: Added)
      requires Valid()
      modifies this
      ensures Valid() && name == old(name) && history == old(history) + [members]
      ensures members == if r.Done? then old(members) + {u} else old(members)
      ensures r.Done? ==> u in users
      ensures Sound() && u in users ==> r.Done?
    {
      r := if fails(calls) then Error else if u in users then Done else NotFound;
      calls := calls + 1;
      if r.Done? {
        members := members + {u};
      }
      history := history + [members];
    }

    /** The members, one row each, in no particular order. */
    method ListTeamMembers() returns (rows: Option<seq<Option<string>>>)
      requires Valid()
      modifies this`calls
      ensures Valid() && (Sound() ==> rows.Some?)
      ensures rows.Some? ==> Listed(rows.value) == members && Repeated(rows.value) == {}
    {
      if fails(calls) {
        rows := None;
      } else {
        var out: seq<Option<string>>, todo := [], members;
        while todo != {}
          invariant todo <= members && Listed(out) == members - todo && Repeated(out) == {}
          decreases todo
        {
          var u :| u in todo;
          ListedSnoc(out, Some(u));
          out := out + [Some(u)];
          todo := todo - {u};
        }
        rows := Some(out);
      }
      calls := calls + 1;
    }

    /** The first loop of "replace members": drop who is not wanted, tick off who is.
        A wanted user with two rows is ticked off at the first and dropped at the second. */
    method DropUnwanted(rows: seq<Option<string>>, wanted: set<string>) returns (ok: bool, desired: set<string>)
      requires Valid()
      modifies this
      ensures Valid() && name == old(name) && old(history) <= history
      ensures Sound() ==> ok
      ensures ok ==> desired == wanted - Listed(rows)
      ensures ok ==> members == old(members) - (Listed(rows) - wanted) - Repeated(rows)
      ensures forall i :: |old(history)| <= i < |history| ==>
                old(members) - (Listed(rows) - wanted) - Repeated(rows) <= history[i] <= old(members)
      ensures old(members) - (Listed(rows) - wanted) - Repeated(rows) <= members <= old(members)
    {
      ok, desired := true, wanted;
      ghost var m0, h0 := members, history;
      ghost var floor := Staying(m0, rows, wanted);
      for i := 0 to |rows|
        invariant Valid() && name == old(name) && h0 <= history
        invariant desired == wanted - Listed(rows[..i])
        invariant members == Staying(m0, rows[..i], wanted) && floor <= members <= m0
        invariant forall j :: |h0| <= j < |history| ==> floor <= history[j] <= m0
      {
        assert rows[..i + 1] == rows[..i] + [rows[i]];
        StayingSnoc(m0, rows[..i], rows[i], wanted);
        StayingFalls(m0, rows, wanted, i + 1);
        if rows[i].None? {
          continue;
        }
        var u := rows[i].value;
        if u in desired {
          desired := desired - {u};
          continue;
        }
        var removed := RemoveTeamMember(u);
        if !removed {
          ok := false;
          return;
        }
      }
      assert rows[..|rows|] == rows;
    }

    /** Adds the users in the order given; stops at the first that cannot be added. */
    method AddAll(ids: seq<string>) returns (ok: bool)
      requires Valid()
      modifies this
      ensures Valid() && name == old(name) && old(history) <= history
      ensures Sound() && Elements(ids) <= users ==> ok
      ensures ok ==> members == old(members) + Elements(ids)
      ensures forall i :: |old(history)| <= i < |history| ==> old(members) <= history[i] <= old(members) + Elements(ids)
      ensures old(members) <= members <= old(members) + Elements(ids)
    {
      ok := true;
      ghost var m0, h0 := members, history;
      for i := 0 to |ids|
        invariant Valid() && name == old(name) && h0 <= history
        invariant members == m0 + Elements(ids[..i]) && Elements(ids[..i]) <= Elements(ids)
        invariant forall j :: |h0| <= j < |history| ==> m0 <= history[j] <= m0 + Elements(ids)
      {
        ElementsStep(ids, i);
        var r := AddTeamMember(ids[i]);
        if !r.Done? {
          ok := false;
          return;
        }
      }
      assert ids[..|ids|] == ids;
    }

    /** Adds a set of users in whatever order the map yields them. */
    method AddSet(ids: set<string>) returns (ok: bool)
      requires Valid()
      modifies this
      ensures Valid() && name == old(name) && old(history) <= history
      ensures Sound() && ids <= users ==> ok
      ensures ok ==> members == old(members) + ids
      ensures forall i :: |old(history)| <= i < |history| ==> old(members) <= history[i] <= old(members) + ids
      ensures old(members) <= members <= old(members) + ids
    {
      ok := true;
      ghost var m0, h0 := members, history;
      var todo := ids;
      while todo != {}
        invariant todo <= ids && Valid() && name == old(name) && h0 <= history
        invariant members == m0 + (ids - todo)
        invariant forall j :: |h0| <= j < |history| ==> m0 <= history[j] <= m0 + ids
        decreases todo
      {
        var u :| u in todo;
        var r := AddTeamMember(u);
        if !r.Done? {
          ok := false;
          return;
        }
        todo := todo - {u};
      }
    }

    /** "replace members" on the rows that were read: on success the members are the
        wanted users, except wanted users that had two rows; at every point, also when it
        aborts, nobody is missing who is in both sets (two rows aside) and nobody is
        present who is in neither. */
    method ReplaceMembers(rows: seq<Option<string>>, ids: seq<string>) returns (ok: bool)
      requires Valid() && Listed(rows) == members
      modifies this
      ensures Valid() && name == old(name) && old(history) <= history
      ensures Sound() && Elements(ids) - old(members) <= users ==> ok
      ensures ok ==> members == Elements(ids) - Repeated(rows)
      ensures forall i :: |old(history)| <= i < |history| ==>
                old(members) * Elements(ids) - Repeated(rows) <= history[i] <= old(members) + Elements(ids)
      ensures old(members) * Elements(ids) - Repeated(rows) <= members <= old(members) + Elements(ids)
    {
      RepeatedAreListed(rows);
      var desired: set<string>;
      ok, desired := DropUnwanted(rows, Elements(ids));
      if ok {
        ok := AddSet(desired);
      }
    }

    /** One operation. On success the members are what it asks for; at every point they
        are between what they were and what it asks for. */
    method Apply(a: Action) returns (ok: bool)
      requires Valid()
      modifies this
      ensures Valid() && old(history) <= history
      ensures a.BadMembers? ==> !ok
      ensures Sound() && !a.BadMembers? && Known(a, users) ==> ok
      ensures ok ==> members == Wanted(a, old(members))
      ensures name == if ok && a.Rename? then a.name else old(name)
      ensures forall i :: |old(history)| <= i < |history| ==> Between(old(members), history[i], Wanted(a, old(members)))
      ensures Between(old(members), members, Wanted(a, old(members)))
    {
      match a {
        case Rename(newName) =>
          ok := !fails(calls);
          calls := calls + 1;
          if ok {
            name := newName;
          }
        case Replace(ids) =>
          var rows := ListTeamMembers();
          if rows.None? {
            return false;
          }
          ok := ReplaceMembers(rows.value, ids);
        case Add(ids) =>
          ok := AddAll(ids);
        case Remove(id) =>
          ok := RemoveTeamMember(id);
        case Ignore =>
          ok := true;
        case BadMembers =>
          ok := false;
      }
    }

    /** The operation loop. On success members and name are what the operations ask for, one
        after the other. At every point the members are between what two consecutive
        operations leave; after an abort in the n-th operation the name is the one that the
        operations before it leave. */
    method PatchGroup(ops: seq<Op>) returns (ok: bool)
      requires Valid()
      modifies this
      ensures Valid() && old(history) <= history
      ensures ok ==> NoneBad(ops)
      ensures Sound() && AllKnown(ops, users) && NoneBad(ops) ==> ok
      ensures ok ==> members == WantedAll(ops, old(members)) && name == NameAfter(ops, old(name))
      ensures forall i :: |old(history)| <= i < |history| ==> BetweenSome(ops, old(members), history[i])
      ensures !ok ==> exists n: nat :: StoppedAt(ops, old(members), old(name), n, members, name)
    {
      ok := true;
      ghost var m0, h0, name0 := members, history, name;
      for n := 0 to |ops|
        invariant Valid() && h0 <= history
        invariant ok && NoneBad(ops[..n])
        invariant members == WantedAll(ops[..n], m0) && name == NameAfter(ops[..n], name0)
        invariant forall i :: |h0| <= i < |history| ==> BetweenSome(ops, m0, history[i])
      {
        ghost var h1 := history;
        OneMoreOp(ops, n, m0, name0);
        OneMoreGood(ops, n, users);
        ok := Apply(ActionOf(ops[n]));
        forall i | |h1| <= i < |history|
          ensures BetweenSome(ops, m0, history[i])
        {
          assert BetweenAt(ops, m0, n, history[i]);
        }
        if !ok {
          assert StoppedAt(ops, m0, name0, n, members, name);
          return;
        }
      }
      assert ops[..|ops|] == ops;
    }
  }

  /** Everybody an action would make a member is a known user. */
  predicate Known(a: Action, users: set<string>) {
    match a
    case Replace(ids) => Elements(ids) <= users
    case Add(ids) => Elements(ids) <= users
    case _ => true
  }

  predicate AllKnown(ops: seq<Op>, users: set<string>) {
    forall n :: 0 <= n < |ops| ==> Known(ActionOf(ops[n]), users)
  }

  /** No operation carries malformed members. */
  predicate NoneBad(ops: seq<Op>) {
    forall n :: 0 <= n < |ops| ==> !ActionOf(ops[n]).BadMembers?
  }

  lemma OneMoreGood(ops: seq<Op>, n: nat, users: set<string>)
    requires n < |ops|
    ensures NoneBad(ops[..n + 1]) <==> NoneBad(ops[..n]) && !ActionOf(ops[n]).BadMembers?
    ensures NoneBad(ops) ==> !ActionOf(ops[n]).BadMembers?
    ensures AllKnown(ops, users) ==> Known(ActionOf(ops[n]), users)
  {
    assert ops[..n + 1] == ops[..n] + [ops[n]];
  }

  // ----- what an operation says

  /** The word, in any letter case and with blanks around it. */
  predicate Reads(s: string, word: string) {
    EqualFold(TrimSpace(s), word)
  }

  predicate IsReplace(op: Op) {
    TrimSpace(op.op) == "" || Reads(op.op, "replace")
  }

  /** A list in which every entry has an id that is not blank. */
  predicate WellFormed(value: Value) {
    value.List? && forall i :: 0 <= i < |value.entries| ==> HasId(value.entries[i])
  }

  predicate HasId(e: Entry) {
    e.Member? && TrimSpace(e.id) != ""
  }

  /** The trimmed ids of a well-formed list. */
  function IdsOf(value: Value): set<string>
    requires WellFormed(value)
  {
    set i | 0 <= i < |value.entries| :: TrimSpace(value.entries[i].id)
  }

  lemma {:induction false} EntryIdsAre(entries: seq<Entry>)
    ensures EntryIds(entries).Some? <==> forall i :: 0 <= i < |entries| ==> HasId(entries[i])
    ensures EntryIds(entries).Some? ==>
              |EntryIds(entries).value| == |entries| &&
              forall i :: 0 <= i < |entries| ==>
                entries[i].Member? && EntryIds(entries).value[i] == TrimSpace(entries[i].id)
  {
    if entries != [] {
      EntryIdsAre(entries[1..]);
      var rest := EntryIds(entries[1..]);
      if HasId(entries[0]) && rest.Some? {
        forall i | 0 <= i < |entries|
          ensures HasId(entries[i])
          ensures EntryIds(entries).value[i] == TrimSpace(entries[i].id)
        {
          if i > 0 {
            assert entries[i] == entries[1..][i - 1];
          }
        }
      }
    }
  }

  lemma MembersOf(value: Value)
    ensures MemberIds(value).Some? <==> WellFormed(value)
    ensures WellFormed(value) ==> Elements(MemberIds(value).value) == IdsOf(value)
  {
    if value.List? {
      EntryIdsAre(value.entries);
      if WellFormed(value) {
        var ids := MemberIds(value).value;
        forall u | u in Elements(ids)
          ensures u in IdsOf(value)
        {
          var i :| 0 <= i < |ids| && ids[i] == u;
          assert TrimSpace(value.entries[i].id) == u;
        }
        forall u | u in IdsOf(value)
          ensures u in Elements(ids)
        {
          var i :| 0 <= i < |value.entries| && TrimSpace(value.entries[i].id) == u;
          assert ids[i] == u;
        }
      }
    }
  }

  lemma OpWords(op: Op)
    ensures Reads(op.op, "replace") <==> ToLower(TrimSpace(op.op)) == "replace"
    ensures Reads(op.op, "add") <==> ToLower(TrimSpace(op.op)) == "add"
    ensures Reads(op.op, "remove") <==> ToLower(TrimSpace(op.op)) == "remove"
    ensures TrimSpace(op.op) == "" <==> ToLower(TrimSpace(op.op)) == ""
  {
    LowerFixed("replace");
    LowerFixed("add");
    LowerFixed("remove");
  }

  lemma PathWords(op: Op)
    ensures Reads(op.path, "members") <==> ToLower(TrimSpace(op.path)) == "members"
    ensures Reads(op.path, "displayName") <==> ToLower(TrimSpace(op.path)) == "displayname"
  {
    LowerFixed("members");
    assert ToLower("displayName") == "displayname";
  }

  lemma One(op: Op, members: set<string>, name: string)
    ensures WantedAll([op], members) == Wanted(ActionOf(op), members)
    ensures NameAfter([op], name) == if ActionOf(op).Rename? then ActionOf(op).name else name
  {
    assert [op][..0] == [];
  }

  /** "replace members" asks for exactly the trimmed ids, "add members" for them in addition; a
      malformed or blank entry makes the operation bad. */
  lemma MembersOp(op: Op, members: set<string>, name: string)
    requires (IsReplace(op) || Reads(op.op, "add")) && Reads(op.path, "members")
    ensures ActionOf(op).BadMembers? <==> !WellFormed(op.value)
    ensures WellFormed(op.value) ==>
              && NameAfter([op], name) == name
              && WantedAll([op], members) == if IsReplace(op) then IdsOf(op.value) else members + IdsOf(op.value)
  {
    OpWords(op);
    PathWords(op);
    MembersOf(op.value);
    One(op, members, name);
  }

  /** "displayName" with a string that is not blank sets the trimmed name; nothing else in the
      group changes. */
  lemma NameOp(op: Op, members: set<string>, name: string)
    requires (IsReplace(op) || Reads(op.op, "add")) && Reads(op.path, "displayName")
    ensures !ActionOf(op).BadMembers? && WantedAll([op], members) == members
    ensures NameAfter([op], name) ==
            if op.value.Str? && TrimSpace(op.value.s) != "" then TrimSpace(op.value.s) else name
  {
    OpWords(op);
    PathWords(op);
    One(op, members, name);
  }

  /** "remove" with a path that starts with "members" removes the id that the lower-cased path
      quotes, if any. */
  lemma RemoveOp(op: Op, members: set<string>, name: string)
    requires Reads(op.op, "remove") && "members" <= ToLower(TrimSpace(op.path))
    ensures !ActionOf(op).BadMembers? && NameAfter([op], name) == name
    ensures var id := MemberFilter(ToLower(TrimSpace(op.path)));
            WantedAll([op], members) == if id == "" then members else members - {id}
  {
    OpWords(op);
    One(op, members, name);
  }

  /** Any other operation changes nothing. */
  lemma OtherOp(op: Op, members: set<string>, name: string)
    requires (IsReplace(op) || Reads(op.op, "add")) ==> !Reads(op.path, "members") && !Reads(op.path, "displayName")
    requires Reads(op.op, "remove") ==> !("members" <= ToLower(TrimSpace(op.path)))
    ensures !ActionOf(op).BadMembers? && WantedAll([op], members) == members && NameAfter([op], name) == name
  {
    OpWords(op);
    PathWords(op);
    One(op, members, name);
  }

  /** What the operations ask for, one after the other. */
  function WantedAll(ops: seq<Op>, members: set<string>): set<string> {
    if ops == [] then members
    else Wanted(ActionOf(ops[|ops| - 1]), WantedAll(ops[..|ops| - 1], members))
  }

  /** The last name the operations give, or the old one. */
  function NameAfter(ops: seq<Op>, name: string): string {
    if ops == [] then name
    else
      var a := ActionOf(ops[|ops| - 1]);
      if a.Rename? then a.name else NameAfter(ops[..|ops| - 1], name)
  }

  predicate BetweenAt(ops: seq<Op>, members: set<string>, n: nat, h: set<string>) {
    n < |ops| && Between(WantedAll(ops[..n], members), h, WantedAll(ops[..n + 1], members))
  }

  /** The n-th operation failed part-way. */
  predicate StoppedAt(ops: seq<Op>, members: set<string>, name: string, n: nat, h: set<string>, now: string) {
    BetweenAt(ops, members, n, h) && now == NameAfter(ops[..n], name)
  }

  lemma OneMoreOp(ops: seq<Op>, n: nat, members: set<string>, name: string)
    requires n < |ops|
    ensures WantedAll(ops[..n + 1], members) == Wanted(ActionOf(ops[n]), WantedAll(ops[..n], members))
    ensures NameAfter(ops[..n + 1], name) ==
            if ActionOf(ops[n]).Rename? then ActionOf(ops[n]).name else NameAfter(ops[..n], name)
  {
    assert ops[..n + 1][..n] == ops[..n];
  }

  ghost predicate BetweenSome(ops: seq<Op>, members: set<string>, h: set<string>) {
    exists n: nat :: BetweenAt(ops, members, n, h)
  }

  lemma {:induction false} PrefixListed(rows: seq<Option<string>>, n: nat)
    requires n <= |rows|
    ensures Listed(rows[..n]) <= Listed(rows) && Repeated(rows[..n]) <= Repeated(rows)
    decreases |rows| - n
  {
    if n == |rows| {
      assert rows[..n] == rows;
    } else {
      PrefixListed(rows, n + 1);
      assert rows[..n + 1] == rows[..n] + [rows[n]];
      ListedSnoc(rows[..n], rows[n]);
    }
  }

  lemma ElementsStep(ids: seq<string>, i: nat)
    requires i < |ids|
    ensures Elements(ids[..i + 1]) == Elements(ids[..i]) + {ids[i]}
    ensures Elements(ids[..i + 1]) <= Elements(ids) && ids[i] in Elements(ids)
  {
    var a, b := ids[..i], ids[..i + 1];
    assert forall j :: 0 <= j < i ==> a[j] == b[j];
    assert b[i] == ids[i];
    forall u | u in Elements(b)
      ensures u in Elements(a) + {ids[i]} && u in Elements(ids)
    {
      var j :| 0 <= j < |b| && b[j] == u;
      assert ids[j] == u;
      if j < i {
        assert a[j] == u;
      }
    }
    forall u | u in Elements(a)
      ensures u in Elements(b)
    {
      var j :| 0 <= j < |a| && a[j] == u;
      assert b[j] == u;
    }
  }

  // ----- member filters

  predicate NoQuote(s: string) {
    forall i :: 0 <= i < |s| ==> !IsQuote(s[i])
  }

  lemma {:induction false} UpToQuoteStops(s: string, rest: string)
    requires NoQuote(s) && (rest == [] || IsQuote(rest[0]))
    ensures UpToQuote(s + rest) == s
  {
    if s == [] {
      assert s + rest == rest;
    } else {
      assert (s + rest)[1..] == s[1..] + rest;
      UpToQuoteStops(s[1..], rest);
    }
  }

  /** The first double quote opens the id, whatever stands before it; only a path without any
      double quote is read from its first single quote. */
  predicate Opens(head: string, quote: char, rest: string) {
    || (quote == '"' && '"' !in head)
    || (quote == '\'' && NoQuote(head) && '"' !in rest)
  }

  /** The parser returns what stands between the opening quote and the next quote of either
      kind, or the end of the path. */
  lemma FilterReads(head: string, quote: char, uid: string, rest: string)
    requires Opens(head, quote, rest) && NoQuote(uid) && (rest == [] || IsQuote(rest[0]))
    ensures MemberFilter(head + [quote] + (uid + rest)) == uid
  {
    var path := head + [quote] + (uid + rest);
    assert path[..|head|] == head && path[|head|] == quote;
    assert quote !in head;
    IndexOfFirst(path, quote, |head|);
    if quote == '\'' {
      NoDoubleQuote(head, uid, rest);
    }
    assert From(path, |head| + 1) == uid + rest;
    UpToQuoteStops(uid, rest);
  }

  /** Without a quote there is no id. */
  lemma FilterOfNoQuote(path: string)
    requires NoQuote(path)
    ensures MemberFilter(path) == ""
  {
    assert path[..|path|] == path;
    IndexOfFirst(path, '\'', |path|);
  }

  lemma NoDoubleQuote(head: string, uid: string, rest: string)
    requires NoQuote(head) && NoQuote(uid) && '"' !in rest
    ensures '"' !in head + ['\''] + (uid + rest)
  {
    var path := head + ['\''] + (uid + rest);
    forall i | 0 <= i < |path|
      ensures path[i] != '"'
    {
      if i > |head| + |uid| {
        assert path[i] == rest[i - |head| - 1 - |uid|];
      }
    }
  }

  /** Every path with a quote is of the form that FilterReads reads. */
  lemma FilterCases(path: string) returns (head: string, quote: char, uid: string, rest: string)
    requires !NoQuote(path)
    ensures path == head + [quote] + (uid + rest)
    ensures Opens(head, quote, rest) && NoQuote(uid) && (rest == [] || IsQuote(rest[0]))
  {
    quote := if '"' in path then '"' else '\'';
    var i := IndexOf(path, quote);
    assert i < |path| by {
      assert path[..|path|] == path;
    }
    head := path[..i];
    var tail := path[i + 1..];
    var n := UpToQuoteLength(tail);
    uid, rest := tail[..n], tail[n..];
  }

  lemma {:induction false} UpToQuoteLength(s: string) returns (n: nat)
    ensures n <= |s| && NoQuote(s[..n]) && (n < |s| ==> IsQuote(s[n]))
  {
    if s == [] || IsQuote(s[0]) {
      n := 0;
    } else {
      var m := UpToQuoteLength(s[1..]);
      n := m + 1;
      assert s[..n] == [s[0]] + s[1..][..m];
    }
  }

  const FILTER_HEAD := "members[value eq "

  /** `members[value eq "uid"]`, with either kind of quote. */
  function FilterPath(uid: string, quote: char): string {
    FILTER_HEAD + [quote] + (uid + [quote, ']'])
  }

  lemma FilterOfPath(uid: string, quote: char)
    requires NoQuote(uid) && IsQuote(quote)
    ensures MemberFilter(FilterPath(uid, quote)) == uid
  {
    FilterReads(FILTER_HEAD, quote, uid, [quote, ']']);
  }

  lemma FilterPathLower(uid: string, quote: char)
    requires IsQuote(quote)
    ensures ToLower(TrimSpace(FilterPath(uid, quote))) == FilterPath(ToLower(uid), quote)
  {
    var path := FilterPath(uid, quote);
    assert path[0] == 'm' && path[|path| - 1] == ']';
    TrimFixed(path, Space);
  }

  lemma RemoveFor(uid: string, quote: char, value: Value)
    requires uid != "" && NoQuote(uid) && IsQuote(quote)
    ensures ActionFor("remove", FilterPath(uid, quote), value) == Remove(uid)
  {
    FilterOfPath(uid, quote);
    assert "members" <= FilterPath(uid, quote);
  }

  /** `members[value eq "uid"]` removes the lower-cased id, because the whole path is
      lower-cased first: it names the user exactly when the id has no upper-case letter. */
  lemma RemovePathNames(uid: string, quote: char, value: Value)
    requires uid != "" && NoQuote(uid) && IsQuote(quote)
    ensures ActionOf(Op("remove", FilterPath(uid, quote), value)) == Remove(ToLower(uid))
    ensures ToLower(uid) == uid <==> Over(uid, NotUpper)
  {
    FilterPathLower(uid, quote);
    KindIsRemove();
    RemoveFor(ToLower(uid), quote, value);
    LowerKeepsIff(uid);
  }

  /** Asked to remove U7, the operation removes u7. */
  lemma RemoveExample()
    ensures ActionOf(Op("remove", FilterPath("U7", '"'), Other)) == Remove("u7")
  {
    RemovePathNames("U7", '"', Other);
    assert ToLower("U7") == "u7";
  }

  lemma LowerKeepsIff(uid: string)
    ensures ToLower(uid) == uid <==> Over(uid, NotUpper)
  {
    if ToLower(uid) == uid {
      forall i | 0 <= i < |uid|
        ensures NotUpper(uid[i])
      {
        assert ToLower(uid)[i] == uid[i];
      }
    } else if Over(uid, NotUpper) {
      LowerFixed(uid);
    }
  }

  predicate NotUpper(c: char) {
    !('A' <= c <= 'Z')
  }

  lemma KindIsRemove()
    ensures ToLower(TrimSpace("remove")) == "remove"
  {
    TrimFixed("remove", Space);
  }
}
