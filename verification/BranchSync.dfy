/**
 Copying a parent project's tables into its branch, table by table
 (internal/controlplane/branches/service.go:104-133, 160-247; keys of the tables:
 migrations/tenant/0001_init.up.sql:6-60, 189-196).
 Every statement is atomic, the loop over the tables is not.
 */
module BranchSync {
  type Name = string
  type Key = int
  type ProjectId = int

  import opened Wrappers

  /** A row besides its key: what it holds, and the value of a second unique key if the table
      has one ((collection, doc_id) in pwrap_embeddings). */
  datatype Row = Row(second: Option<int>, body: int)

  /** The primary key column. */
  datatype KeyColumn = IdColumn | NameColumn | OtherColumn

  datatype Table = Table(key: KeyColumn, rows: map<Key, Row>)

  type Schema = map<Name, Table>

  datatype Status = Done | BadName | Refused | CutOff | NoProject | NoParent

  datatype Outcome = Outcome(child: Schema, status: Status)

  /** Second keys are unique. */
  ghost predicate Unique(rows: map<Key, Row>) {
    forall k, l :: k in rows && l in rows && rows[k].second.Some? && rows[k].second == rows[l].second ==> k == l
  }

  // --- One statement ---------------------------------------------------------------------------

  predicate ValidIdent(t: Name) {
    && 0 < |t| <= 63
    && forall i :: 0 <= i < |t| ==> 'a' <= t[i] <= 'z' || 'A' <= t[i] <= 'Z' || '0' <= t[i] <= '9' || t[i] == '_'
  }

  function ConflictColumn(t: Name): KeyColumn {
    if t == "pwrap_matviews" then NameColumn else IdColumn
  }

  /** What ON CONFLICT (key) DO NOTHING leaves in the target. */
  function Merge(from: map<Key, Row>, to: map<Key, Row>): map<Key, Row> {
    map k | k in from.Keys + to.Keys :: if k in to then to[k] else from[k]
  }

  /** A row that would be inserted meets a present row with the same second key. */
  predicate Clash(from: map<Key, Row>, to: map<Key, Row>) {
    exists k, l :: k in from && k !in to && l in to && from[k].second.Some? && from[k].second == to[l].second
  }

  /** INSERT INTO child.t SELECT * FROM parent.t: refused without the conflict column's index or
      on a second-key clash, and then without effect. */
  predicate Accepted(t: Name, from: Table, to: Table) {
    to.key == ConflictColumn(t) && !Clash(from.rows, to.rows)
  }

  predicate Shared(parent: Schema, child: Schema, t: Name) { t in parent && t in child }

  function CopyOne(parent: Schema, child: Schema, t: Name): Outcome {
    if !ValidIdent(t) then Outcome(child, BadName)
    else if !Shared(parent, child, t) then Outcome(child, Done)
    else if !Accepted(t, parent[t], child[t]) then Outcome(child, Refused)
    else Outcome(child[t := Table(child[t].key, Merge(parent[t].rows, child[t].rows))], Done)
  }

  function WipeOne(child: Schema, t: Name): Outcome {
    if !ValidIdent(t) then Outcome(child, BadName)
    else if t !in child then Outcome(child, Done)
    else Outcome(child[t := Table(child[t].key, map[])], Done)
  }

  // --- The loops, which can be cut off after any number of names ------------------------------

  function Copy(parent: Schema, child: Schema, tables: seq<Name>, budget: nat): Outcome {
    if tables == [] then Outcome(child, Done)
    else if budget == 0 then Outcome(child, CutOff)
    else
      var one := CopyOne(parent, child, tables[0]);
      if one.status != Done then one else Copy(parent, one.child, tables[1..], budget - 1)
  }

  function Wipe(child: Schema, tables: seq<Name>, budget: nat): Outcome {
    if tables == [] then Outcome(child, Done)
    else if budget == 0 then Outcome(child, CutOff)
    else
      var one := WipeOne(child, tables[0]);
      if one.status != Done then one else Wipe(one.child, tables[1..], budget - 1)
  }

  function Synced(parent: Schema, child: Schema, tables: seq<Name>, truncate: bool, budget: nat): Outcome {
    if !truncate then Copy(parent, child, tables, budget)
    else
      var wiped := Wipe(child, tables, budget);
      if wiped.status != Done then wiped
      else Copy(parent, wiped.child, tables, if budget < |tables| then 0 else budget - |tables|)
  }

  // --- What a copy does, row by row --------------------------------------------------------------

  predicate Fits(parent: Schema, child: Schema, t: Name) {
    ValidIdent(t) && (Shared(parent, child, t) ==> Accepted(t, parent[t], child[t]))
  }

  function Merged(parent: Schema, child: Schema, tables: seq<Name>): Schema {
    map t | t in child ::
      if t in tables && t in parent then Table(child[t].key, Merge(parent[t].rows, child[t].rows)) else child[t]
  }

  lemma MergeTwice(from: map<Key, Row>, to: map<Key, Row>)
    ensures Merge(from, Merge(from, to)) == Merge(from, to)
    ensures !Clash(from, Merge(from, to))
  {
  }

  /** The statement is refused exactly when its result would break the second unique key. */
  lemma ClashIffKeyBroken(from: map<Key, Row>, to: map<Key, Row>)
    requires Unique(from) && Unique(to)
    ensures Unique(Merge(from, to)) <==> !Clash(from, to)
  {
    var merged := Merge(from, to);
    if k, l :| k in from && k !in to && l in to && from[k].second.Some? && from[k].second == to[l].second {
      assert k in merged && l in merged && merged[k].second == merged[l].second;
    } else {
      forall k, l | k in merged && l in merged && merged[k].second.Some? && merged[k].second == merged[l].second
        ensures k == l
      {
        if k !in to && l !in to { assert from[k].second == from[l].second; }
      }
    }
  }

  /** A copy that is not cut off succeeds exactly when every name is valid and every shared table
      accepts the parent's rows, and then every listed table is the merge of the two. */
  lemma {:induction false} CopyMerges(parent: Schema, child: Schema, tables: seq<Name>, budget: nat)
    requires budget >= |tables|
    ensures var r := Copy(parent, child, tables, budget);
            && r.status != CutOff
            && (r.status == Done <==> forall i :: 0 <= i < |tables| ==> Fits(parent, child, tables[i]))
            && (r.status == Done ==> r.child == Merged(parent, child, tables))
    decreases |tables|
  {
    if tables != [] {
      var t, rest, one := tables[0], tables[1..], CopyOne(parent, child, tables[0]);
      assert tables == [t] + rest;
      OneFits(parent, child, t);
      hide Fits;
      if one.status == Done {
        CopyMerges(parent, one.child, rest, budget - 1);
        forall i | 0 <= i < |rest| ensures Fits(parent, one.child, rest[i]) <==> Fits(parent, child, rest[i]) {
          FitsStill(parent, child, t, rest[i]);
        }
        assert forall i :: 0 <= i < |rest| ==> rest[i] == tables[i + 1];
        MergedStep(parent, child, tables);
      }
    }
  }

  lemma OneFits(parent: Schema, child: Schema, t: Name)
    ensures CopyOne(parent, child, t).status == Done <==> Fits(parent, child, t)
  {
  }

  lemma FitsStill(parent: Schema, child: Schema, t: Name, u: Name)
    requires CopyOne(parent, child, t).status == Done
    ensures Fits(parent, CopyOne(parent, child, t).child, u) <==> Fits(parent, child, u)
  {
    if Shared(parent, child, t) { MergeTwice(parent[t].rows, child[t].rows); }
  }

  lemma MergedStep(parent: Schema, child: Schema, tables: seq<Name>)
    requires tables != [] && CopyOne(parent, child, tables[0]).status == Done
    ensures Merged(parent, CopyOne(parent, child, tables[0]).child, tables[1..]) == Merged(parent, child, tables)
  {
    var t := tables[0];
    assert tables == [t] + tables[1..];
    if Shared(parent, child, t) { MergeTwice(parent[t].rows, child[t].rows); }
  }

  /** However a copy ends, no row of the child is lost or changed, and a row is new only if it is
      the parent's row of a listed table under a key the child did not have. */
  lemma {:induction false} CopyOnlyAdds(parent: Schema, child: Schema, tables: seq<Name>, budget: nat)
    ensures var after := Copy(parent, child, tables, budget).child;
            && after.Keys == child.Keys
            && (forall t :: t in child ==> Grown(parent, child, after, tables, t))
    decreases |tables|
  {
    if tables != [] && budget > 0 {
      var one := CopyOne(parent, child, tables[0]);
      assert forall t :: t in tables[1..] ==> t in tables;
      if one.status == Done {
        CopyOnlyAdds(parent, one.child, tables[1..], budget - 1);
        var after := Copy(parent, child, tables, budget).child;
        forall t | t in child ensures Grown(parent, child, after, tables, t) {
          assert Grown(parent, one.child, after, tables[1..], t);
        }
      }
    }
  }

  predicate Grown(parent: Schema, before: Schema, after: Schema, tables: seq<Name>, t: Name)
    requires t in before
  {
    && t in after
    && after[t].key == before[t].key
    && (forall k :: k in before[t].rows ==> k in after[t].rows && after[t].rows[k] == before[t].rows[k])
    && (forall k :: k in after[t].rows && k !in before[t].rows ==>
          t in tables && t in parent && k in parent[t].rows && after[t].rows[k] == parent[t].rows[k])
  }

  // --- Cut off anywhere and run again --------------------------------------------------------------

  predicate Covers(parent: Schema, child: Schema, t: Name) {
    Shared(parent, child, t) ==> parent[t].rows.Keys <= child[t].rows.Keys
  }

  lemma CoveredIsDone(parent: Schema, child: Schema, t: Name)
    requires ValidIdent(t) && Covers(parent, child, t)
    requires Shared(parent, child, t) ==> child[t].key == ConflictColumn(t)
    ensures CopyOne(parent, child, t) == Outcome(child, Done)
  {
    if Shared(parent, child, t) {
      assert Merge(parent[t].rows, child[t].rows) == child[t].rows;
      assert child[t := child[t]] == child;
    }
  }

  /** A copy resumed from wherever it was cut off or failed ends as if it had run once. */
  lemma {:induction false} CopyResumes(parent: Schema, child: Schema, tables: seq<Name>, cut: nat, budget: nat)
    requires budget >= |tables|
    ensures Copy(parent, Copy(parent, child, tables, cut).child, tables, budget) == Copy(parent, child, tables, budget)
    decreases |tables|
  {
    if tables != [] && cut > 0 {
      var t, rest := tables[0], tables[1..];
      var one := CopyOne(parent, child, t);
      if one.status == Done {
        var partial := Copy(parent, one.child, rest, cut - 1).child;
        CopyResumes(parent, one.child, rest, cut - 1, budget - 1);
        CopyOnlyAdds(parent, one.child, rest, cut - 1);
        if Shared(parent, child, t) {
          assert Grown(parent, one.child, partial, rest, t);
          forall k | k in parent[t].rows ensures k in partial[t].rows.Keys {
            assert k in one.child[t].rows;
          }
        }
        CoveredIsDone(parent, partial, t);
      }
    }
  }

  // --- Truncating first -------------------------------------------------------------------------

  function Wiped(child: Schema, tables: seq<Name>): Schema {
    map t | t in child :: if t in tables then Table(child[t].key, map[]) else child[t]
  }

  /** The names the loop gets through before it is cut off or meets an invalid one. */
  function ValidPrefix(tables: seq<Name>, budget: nat): (n: nat)
    ensures n <= |tables|
  {
    if tables == [] || budget == 0 || !ValidIdent(tables[0]) then 0 else 1 + ValidPrefix(tables[1..], budget - 1)
  }

  lemma {:induction false} PrefixFits(tables: seq<Name>, budget: nat)
    ensures budget >= |tables| ==>
              (ValidPrefix(tables, budget) == |tables| <==> forall i :: 0 <= i < |tables| ==> ValidIdent(tables[i]))
    decreases |tables|
  {
    if tables != [] && budget > 0 {
      PrefixFits(tables[1..], budget - 1);
      hide ValidIdent;
      assert tables == [tables[0]] + tables[1..];
      assert forall i :: 1 <= i < |tables| ==> tables[i] == tables[1..][i - 1];
      assert (forall i :: 0 <= i < |tables[1..]| ==> ValidIdent(tables[1..][i]))
        ==> forall i :: 1 <= i < |tables| ==> ValidIdent(tables[i]);
    }
  }

  /** Truncation empties exactly the tables before the point where it stops, and reports success
      exactly if it does not stop. */
  lemma {:induction false} WipeEmpties(child: Schema, tables: seq<Name>, budget: nat)
    ensures var r, n := Wipe(child, tables, budget), ValidPrefix(tables, budget);
            && r.child == Wiped(child, tables[..n])
            && (r.status == Done <==> n == |tables|)
    decreases |tables|
  {
    PrefixFits(tables, budget);
    var n := ValidPrefix(tables, budget);
    if n > 0 {
      var t, rest := tables[0], tables[1..];
      WipeEmpties(WipeOne(child, t).child, rest, budget - 1);
      assert tables[..n] == [t] + rest[..n - 1];
      assert Wiped(WipeOne(child, t).child, rest[..n - 1]) == Wiped(child, tables[..n]);
    } else {
      assert Wiped(child, tables[..0]) == child;
    }
  }

  /** What a truncating sync needs to succeed, readable before the call. */
  predicate CanReplace(parent: Schema, child: Schema, tables: seq<Name>) {
    forall i :: 0 <= i < |tables| ==> ValidIdent(tables[i]) && KeyFits(parent, child, tables[i])
  }

  function Replaced(parent: Schema, child: Schema, tables: seq<Name>): Schema {
    map t | t in child ::
      if t !in tables then child[t] else Table(child[t].key, if t in parent then parent[t].rows else map[])
  }

  /** With truncation a sync that is not cut off succeeds exactly when the names are valid and the
      key columns fit, whatever second keys the child had; then the listed shared tables hold the
      parent's rows, the listed tables the parent lacks are empty, and the rest is untouched. */
  lemma TruncatingSyncReplaces(parent: Schema, child: Schema, tables: seq<Name>, budget: nat)
    requires budget >= 2 * |tables|
    ensures var r := Synced(parent, child, tables, true, budget);
            && (r.status == Done <==> CanReplace(parent, child, tables))
            && (r.status == Done ==> r.child == Replaced(parent, child, tables))
  {
    WipeEmpties(child, tables, budget);
    PrefixFits(tables, budget);
    hide ValidIdent, ConflictColumn;
    if ValidPrefix(tables, budget) == |tables| {
      assert tables[..|tables|] == tables;
      var wiped := Wiped(child, tables);
      CopyMerges(parent, wiped, tables, budget - |tables|);
      forall i | 0 <= i < |tables|
        ensures Fits(parent, wiped, tables[i]) <==>
                (Shared(parent, child, tables[i]) ==> child[tables[i]].key == ConflictColumn(tables[i]))
      {
        assert tables[i] in tables;
      }
      ReplacedIsMergedWiped(parent, child, tables);
    }
  }

  lemma ReplacedIsMergedWiped(parent: Schema, child: Schema, tables: seq<Name>)
    ensures Merged(parent, Wiped(child, tables), tables) == Replaced(parent, child, tables)
  {
    forall t | t in child && t in tables && t in parent ensures Merge(parent[t].rows, map[]) == parent[t].rows {}
  }

  /** An invalid name in the list makes a truncating sync fail with the tables before it already
      emptied and nothing copied. */
  lemma BadNameLosesEarlierTables(parent: Schema, child: Schema, tables: seq<Name>, bad: nat, budget: nat)
    requires budget >= |tables| > bad && !ValidIdent(tables[bad])
    requires forall i :: 0 <= i < bad ==> ValidIdent(tables[i])
    ensures Synced(parent, child, tables, true, budget) == Outcome(Wiped(child, tables[..bad]), BadName)
  {
    StopsAtBad(child, tables, bad, budget);
    WipeEmpties(child, tables, budget);
  }

  lemma {:induction false} StopsAtBad(child: Schema, tables: seq<Name>, bad: nat, budget: nat)
    requires budget >= |tables| > bad && !ValidIdent(tables[bad])
    requires forall i :: 0 <= i < bad ==> ValidIdent(tables[i])
    ensures ValidPrefix(tables, budget) == bad && Wipe(child, tables, budget).status == BadName
    decreases |tables|
  {
    if bad > 0 {
      assert ValidIdent(tables[0]);
      StopsAtBad(WipeOne(child, tables[0]).child, tables[1..], bad - 1, budget - 1);
    }
  }

  predicate KeyFits(parent: Schema, child: Schema, t: Name) {
    Shared(parent, child, t) ==> child[t].key == ConflictColumn(t)
  }

  /** The other failure of a truncating sync: a shared table whose key column does not fit.  By then
      every listed table has been emptied, and only those before the misfit get their rows. */
  lemma MisfitEmptiesTheRest(parent: Schema, child: Schema, tables: seq<Name>, bad: nat, budget: nat)
    requires budget >= 2 * |tables| && bad < |tables|
    requires forall i :: 0 <= i < |tables| ==> ValidIdent(tables[i])
    requires forall i :: 0 <= i < bad ==> KeyFits(parent, child, tables[i])
    requires !KeyFits(parent, child, tables[bad])
    ensures Synced(parent, child, tables, true, budget) ==
            Outcome(Merged(parent, Wiped(child, tables), tables[..bad]), Refused)
    ensures forall t :: t in child && t in tables ==>
              Merged(parent, Wiped(child, tables), tables[..bad])[t].rows ==
              if t in tables[..bad] && t in parent then parent[t].rows else map[]
  {
    var wiped := Wiped(child, tables);
    WipeEmpties(child, tables, budget);
    PrefixFits(tables, budget);
    assert tables[..|tables|] == tables;
    hide ValidIdent, ConflictColumn;
    forall i | 0 <= i < bad ensures Fits(parent, wiped, tables[i]) {
      assert tables[i] in tables;
    }
    assert tables[bad] in tables;
    CopyStopsAt(parent, wiped, tables, bad, budget - |tables|);
    MergedIntoWiped(parent, child, tables, bad);
  }

  lemma MergedIntoWiped(parent: Schema, child: Schema, tables: seq<Name>, n: nat)
    requires n <= |tables|
    ensures forall t :: t in child && t in tables ==>
              Merged(parent, Wiped(child, tables), tables[..n])[t].rows ==
              if t in tables[..n] && t in parent then parent[t].rows else map[]
  {
    forall t | t in child && t in tables && t in parent ensures Merge(parent[t].rows, map[]) == parent[t].rows {}
  }

  /** A copy stops at the first table that does not accept, with those before it merged. */
  lemma {:induction false} CopyStopsAt(parent: Schema, child: Schema, tables: seq<Name>, bad: nat, budget: nat)
    requires budget >= |tables| > bad && !Fits(parent, child, tables[bad]) && ValidIdent(tables[bad])
    requires forall i :: 0 <= i < bad ==> Fits(parent, child, tables[i])
    ensures Copy(parent, child, tables, budget) == Outcome(Merged(parent, child, tables[..bad]), Refused)
    decreases |tables|
  {
    var t, rest, one := tables[0], tables[1..], CopyOne(parent, child, tables[0]);
    OneFits(parent, child, t);
    if bad == 0 {
      assert Merged(parent, child, tables[..0]) == child;
    } else {
      assert Fits(parent, child, t);
      hide Fits;
      forall i | 0 <= i < |rest| ensures Fits(parent, one.child, rest[i]) <==> Fits(parent, child, tables[i + 1]) {
        FitsStill(parent, child, t, rest[i]);
      }
      CopyStopsAt(parent, one.child, rest, bad - 1, budget - 1);
      assert tables[..bad][1..] == rest[..bad - 1];
      MergedStep(parent, child, tables[..bad]);
    }
  }

  lemma WipeForgets(child: Schema, other: Schema, tables: seq<Name>, budget: nat)
    requires other.Keys == child.Keys
    requires forall t :: t in child ==> other[t].key == child[t].key
    requires forall t :: t in child && t !in tables[..ValidPrefix(tables, budget)] ==> other[t] == child[t]
    ensures Wipe(other, tables, budget) == Wipe(child, tables, budget)
  {
    hide Wipe, Wiped, ValidPrefix;
    WipeEmpties(child, tables, budget);
    WipeEmpties(other, tables, budget);
    WipedAlike(child, other, tables[..ValidPrefix(tables, budget)]);
    SameStatus(child, other, tables, budget);
  }

  lemma WipedAlike(child: Schema, other: Schema, tables: seq<Name>)
    requires other.Keys == child.Keys
    requires forall t :: t in child ==> other[t].key == child[t].key
    requires forall t :: t in child && t !in tables ==> other[t] == child[t]
    ensures Wiped(other, tables) == Wiped(child, tables)
  {
  }

  lemma {:induction false} SameStatus(child: Schema, other: Schema, tables: seq<Name>, budget: nat)
    ensures Wipe(other, tables, budget).status == Wipe(child, tables, budget).status
    decreases |tables|
  {
    if tables != [] && budget > 0 && ValidIdent(tables[0]) {
      SameStatus(WipeOne(child, tables[0]).child, WipeOne(other, tables[0]).child, tables[1..], budget - 1);
    }
  }

  lemma {:induction false} PrefixGrows(tables: seq<Name>, cut: nat, budget: nat)
    requires cut <= budget
    ensures ValidPrefix(tables, cut) <= ValidPrefix(tables, budget)
    decreases |tables|
  {
    if tables != [] && cut > 0 { PrefixGrows(tables[1..], cut - 1, budget - 1); }
  }

  /** Cut off or refused anywhere, in either mode, and run again from what it left: the end is that
      of one run without interruption. */
  lemma SyncResumes(parent: Schema, child: Schema, tables: seq<Name>, truncate: bool, cut: nat, budget: nat)
    requires cut <= budget && budget >= 2 * |tables|
    ensures Synced(parent, Synced(parent, child, tables, truncate, cut).child, tables, truncate, budget)
         == Synced(parent, child, tables, truncate, budget)
  {
    if !truncate {
      CopyResumes(parent, child, tables, cut, budget);
    } else {
      var first := Wipe(child, tables, cut);
      var partial := Synced(parent, child, tables, true, cut).child;
      WipeEmpties(child, tables, cut);
      PrefixGrows(tables, cut, budget);
      var n := ValidPrefix(tables, budget);
      assert forall t :: t in tables[..ValidPrefix(tables, cut)] ==> t in tables[..n];
      if first.status == Done {
        CopyOnlyAdds(parent, first.child, tables, if cut < |tables| then 0 else cut - |tables|);
        assert tables[..n] == tables;
        forall t | t in child ensures partial[t].key == child[t].key && (t !in tables ==> partial[t] == child[t]) {
          assert Grown(parent, first.child, partial, tables, t);
          if t !in tables { SameRows(first.child[t].rows, partial[t].rows); }
        }
      }
      WipeForgets(child, partial, tables, budget);
    }
  }

  lemma SameRows(a: map<Key, Row>, b: map<Key, Row>)
    requires forall k :: k in a ==> k in b && b[k] == a[k]
    requires forall k :: k in b ==> k in a
    ensures a == b
  {
    assert forall k :: k in a ==> a[k] == b[k];
    assert a.Keys == b.Keys by {
      assert forall k :: k in a.Keys <==> k in b.Keys;
    }
  }

  /** Syncing a second time changes nothing. */
  lemma SyncTwice(parent: Schema, child: Schema, tables: seq<Name>, truncate: bool, budget: nat)
    requires budget >= 2 * |tables|
    ensures Synced(parent, Synced(parent, child, tables, truncate, budget).child, tables, truncate, budget)
         == Synced(parent, child, tables, truncate, budget)
  {
    SyncResumes(parent, child, tables, truncate, budget, budget);
  }

  // --- What copying adds, and the tables it knows -------------------------------------------------

  /** A copy that succeeds leaves in every listed shared table exactly the child's rows, as they were,
      and the parent's rows under all other keys; every other table is as it was. */
  lemma CopyIsUnion(parent: Schema, child: Schema, tables: seq<Name>, budget: nat, t: Name)
    requires budget >= |tables| && Copy(parent, child, tables, budget).status == Done && t in child
    ensures var after := Copy(parent, child, tables, budget).child;
            && t in after && after[t].key == child[t].key
            && (t !in tables || t !in parent ==> after[t] == child[t])
            && (t in tables && t in parent ==>
                  && after[t].rows.Keys == child[t].rows.Keys + parent[t].rows.Keys
                  && forall k :: k in after[t].rows ==>
                       after[t].rows[k] == if k in child[t].rows then child[t].rows[k] else parent[t].rows[k])
  {
    CopyMerges(parent, child, tables, budget);
  }

  /** The names that can be listed: one to 63 letters, digits and underscores. */
  lemma ValidIdentIff(t: Name)
    ensures ValidIdent(t) <==> 1 <= |t| < 64 && forall c :: c in t ==>
              || 65 <= c as int <= 90 || 97 <= c as int <= 122 || 48 <= c as int <= 57 || c as int == 95
  {
    if ValidIdent(t) {
      forall c | c in t
        ensures 65 <= c as int <= 90 || 97 <= c as int <= 122 || 48 <= c as int <= 57 || c as int == 95
      {
        var i :| 0 <= i < |t| && t[i] == c;
      }
    } else if forall c :: c in t ==>
        || 65 <= c as int <= 90 || 97 <= c as int <= 122 || 48 <= c as int <= 57 || c as int == 95 {
      forall i | 0 <= i < |t|
        ensures 'a' <= t[i] <= 'z' || 'A' <= t[i] <= 'Z' || '0' <= t[i] <= '9' || t[i] == '_'
      {
        assert t[i] in t;
      }
    }
  }

  /** A matview registry is keyed by name and every other table by id: the other way round the
      statement is refused. */
  lemma KeyColumns(t: Name, from: Table, to: Table)
    ensures Accepted(t, from, to) ==> to.key == if t == "pwrap_matviews" then NameColumn else IdColumn
  {
  }

  /** The tables of the baseline with the keys it gives them. */
  predicate HasBuiltIns(schema: Schema) {
    && "pwrap_documents" in schema && schema["pwrap_documents"].key == IdColumn
    && "pwrap_embeddings" in schema && schema["pwrap_embeddings"].key == IdColumn
    && "pwrap_geo" in schema && schema["pwrap_geo"].key == IdColumn
    && "pwrap_matviews" in schema && schema["pwrap_matviews"].key == NameColumn
  }

  predicate BuiltIn(t: Name) {
    t == "pwrap_documents" || t == "pwrap_embeddings" || t == "pwrap_geo" || t == "pwrap_matviews"
  }

  /** With no tables listed, a truncating sync of two projects that have the baseline always goes
      through: the four built-in tables become the parent's, and no other table changes. */
  lemma DefaultSyncReplacesBuiltIns(parent: Schema, child: Schema, budget: nat)
    requires HasBuiltIns(parent) && HasBuiltIns(child) && budget >= 8
    ensures var r := Synced(parent, child, DEFAULT_TABLES, true, budget);
            && r.status == Done
            && r.child.Keys == child.Keys
            && forall t :: t in child ==>
                 if BuiltIn(t) then r.child[t] == Table(child[t].key, parent[t].rows) else r.child[t] == child[t]
  {
    DefaultTables();
    TruncatingSyncReplaces(parent, child, DEFAULT_TABLES, budget);
  }

  lemma DefaultTables()
    ensures |DEFAULT_TABLES| == 4 && forall t :: t in DEFAULT_TABLES <==> BuiltIn(t)
    ensures forall i :: 0 <= i < 4 ==> ValidIdent(DEFAULT_TABLES[i])
  {
    assert DEFAULT_TABLES[0] == "pwrap_documents" && DEFAULT_TABLES[1] == "pwrap_embeddings";
    assert DEFAULT_TABLES[2] == "pwrap_geo" && DEFAULT_TABLES[3] == "pwrap_matviews";
    assert ValidIdent("pwrap_documents") && ValidIdent("pwrap_embeddings");
    assert ValidIdent("pwrap_geo") && ValidIdent("pwrap_matviews");
  }

  // --- The service ----------------------------------------------------------------------------------

  datatype Project = Project(pgSchema: Name, parent: Option<ProjectId>)

  const DEFAULT_TABLES: seq<Name> := ["pwrap_documents", "pwrap_embeddings", "pwrap_geo", "pwrap_matviews"]

  function TablesOf(schemas: map<Name, Schema>, schema: Name): Schema {
    if schema in schemas then schemas[schema] else map[]
  }

  /** The parent's tables as a copy sees them; none if parent and child are one schema. */
  function Source(schemas: map<Name, Schema>, from: Name, to: Name): Schema {
    if from == to then map[] else TablesOf(schemas, from)
  }

  class Branches {
    const projects: map<ProjectId, Project>
    var schemas: map<Name, Schema>

    constructor (projects: map<ProjectId, Project>, schemas: map<Name, Schema>)
      ensures this.projects == projects && this.schemas == schemas
    {
      this.projects, this.schemas := projects, schemas;
    }

    /** Only the child's schema changes. */
    twostate predicate OnlyIn(schema: Name)
      reads this
    {
      schemas.Keys == old(schemas).Keys && forall s :: s in schemas && s != schema ==> schemas[s] == old(schemas)[s]
    }

    method CopyData(from: Name, to: Name, tables: seq<Name>, budget: nat) returns (status: Status)
      modifies this
      ensures Outcome(TablesOf(schemas, to), status)
           == Copy(Source(old(schemas), from, to), TablesOf(old(schemas), to), tables, budget)
      ensures OnlyIn(to)
    {
      hide ValidIdent, Clash, ConflictColumn, Merge;
      ghost var parent := Source(schemas, from, to);
      for i := 0 to |tables|
        invariant Source(schemas, from, to) == parent && OnlyIn(to) && budget >= i
        invariant Copy(parent, TablesOf(schemas, to), tables[i..], budget - i)
               == Copy(parent, TablesOf(old(schemas), to), tables, budget)
      {
        var t := tables[i];
        assert tables[i..][0] == t && tables[i..][1..] == tables[i + 1..];
        if budget == i { return CutOff; }
        if !ValidIdent(t) { return BadName; }
        if from == to || from !in schemas || t !in schemas[from] || to !in schemas || t !in schemas[to] { continue; }
        var target := schemas[to][t];
        if target.key != ConflictColumn(t) || Clash(schemas[from][t].rows, target.rows) { return Refused; }
        schemas := schemas[to := schemas[to][t := Table(target.key, Merge(schemas[from][t].rows, target.rows))]];
      }
      return Done;
    }

    method Truncate(schema: Name, tables: seq<Name>, budget: nat) returns (status: Status)
      modifies this
      ensures Outcome(TablesOf(schemas, schema), status) == Wipe(TablesOf(old(schemas), schema), tables, budget)
      ensures OnlyIn(schema)
    {
      hide ValidIdent;
      for i := 0 to |tables|
        invariant OnlyIn(schema) && budget >= i
        invariant Wipe(TablesOf(schemas, schema), tables[i..], budget - i)
               == Wipe(TablesOf(old(schemas), schema), tables, budget)
      {
        var t := tables[i];
        assert tables[i..][0] == t && tables[i..][1..] == tables[i + 1..];
        if budget == i { return CutOff; }
        if !ValidIdent(t) { return BadName; }
        if schema !in schemas || t !in schemas[schema] { continue; }
        schemas := schemas[schema := schemas[schema][t := Table(schemas[schema][t].key, map[])]];
      }
      return Done;
    }

    /** Brings a branch up to its parent; the parent and every other project stay as they are. */
    method Sync(childId: ProjectId, tables: seq<Name>, truncate: bool, budget: nat) returns (status: Status)
      modifies this
      ensures childId !in projects ==> status == NoProject && schemas == old(schemas)
      ensures childId in projects && projects[childId].parent == None ==> status == NoParent && schemas == old(schemas)
      ensures childId in projects ==> OnlyIn(projects[childId].pgSchema)
      ensures childId in projects && projects[childId].parent.Some? ==>
                var child, id := projects[childId], projects[childId].parent.value;
                if id !in projects then status == NoProject && schemas == old(schemas)
                else
                  Outcome(TablesOf(schemas, child.pgSchema), status)
                  == Synced(Source(old(schemas), projects[id].pgSchema, child.pgSchema),
                            TablesOf(old(schemas), child.pgSchema),
                            if tables == [] then DEFAULT_TABLES else tables, truncate, budget)
    {
      if childId !in projects { return NoProject; }
      var child := projects[childId];
      if child.parent == None { return NoParent; }
      if child.parent.value !in projects { return NoProject; }
      var parent := projects[child.parent.value];
      var names := if tables == [] then DEFAULT_TABLES else tables;
      hide Wipe, Copy;
      if truncate {
        status := Truncate(child.pgSchema, names, budget);
        if status != Done { return; }
        status := CopyData(parent.pgSchema, child.pgSchema, names, if budget < |names| then 0 else budget - |names|);
      } else {
        status := CopyData(parent.pgSchema, child.pgSchema, names, budget);
      }
    }
  }
}
