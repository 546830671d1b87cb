/**
 Change capture and replay: the row trigger that logs every change to pwrap_documents
 (migrations/tenant/0001_init.up.sql:94-183), the event a subscriber gets for a log row
 (internal/controlplane/realtime/hub.go:205-242), and the browser code that folds events
 into a view (examples/realtime-todos/web/index.html:105-148).
 */
module ChangeReplay {
  import opened Wrappers

  /** Row ids are only compared for equality. */
  type Id = int

  datatype Data = Data(title: Option<string>, done: Option<bool>)
  datatype Doc = Doc(collection: string, data: Data)
  type Table = map<Id, Doc>

  // --- Capture ---------------------------------------------------------------------------

  /** A statement's effect on one row; an update leaves the id alone. */
  datatype Change = Insert(id: Id, doc: Doc) | Update(id: Id, doc: Doc) | Delete(id: Id)

  datatype Op = INSERT | UPDATE | DELETE
  datatype Entry = Entry(op: Op, rowId: Id, before: Option<Doc>, after: Option<Doc>)

  /** A row change that happens: inserts of new keys, updates and deletes of existing ones. */
  predicate Happens(t: Table, c: Change) {
    c.Insert? <==> c.id !in t
  }

  function Apply(t: Table, c: Change): Table {
    match c
    case Insert(id, doc) => t[id := doc]
    case Update(id, doc) => t[id := doc]
    case Delete(id) => t - {id}
  }

  /** pwrap_capture_change: OLD for updates and deletes, NEW for inserts and updates. */
  function Capture(t: Table, c: Change): Entry
    requires Happens(t, c)
  {
    match c
    case Insert(id, doc) => Entry(INSERT, id, None, Some(doc))
    case Update(id, doc) => Entry(UPDATE, id, Some(t[id]), Some(doc))
    case Delete(id) => Entry(DELETE, id, Some(t[id]), None)
  }

  /** A log row says what the row was and what it has become, and the operation goes with that. */
  lemma CaptureIs(t: Table, c: Change)
    requires Happens(t, c)
    ensures var e := Capture(t, c);
            && e.rowId == c.id && e.before == At(t, c.id) && e.after == At(Apply(t, c), c.id)
            && (e.op == INSERT <==> e.before == None)
            && (e.op == DELETE <==> e.after == None)
            && (e.op == UPDATE <==> e.before.Some? && e.after.Some?)
    ensures forall id :: id != c.id ==> At(Apply(t, c), id) == At(t, id)
  {
  }

  predicate Valid(t: Table, changes: seq<Change>)
    decreases |changes|
  {
    changes == [] || (Happens(t, changes[0]) && Valid(Apply(t, changes[0]), changes[1..]))
  }

  function After(t: Table, changes: seq<Change>): Table
    decreases |changes|
  {
    if changes == [] then t else After(Apply(t, changes[0]), changes[1..])
  }

  function Log(t: Table, changes: seq<Change>): seq<Entry>
    requires Valid(t, changes)
    decreases |changes|
  {
    if changes == [] then [] else [Capture(t, changes[0])] + Log(Apply(t, changes[0]), changes[1..])
  }

  // --- The consumer's view -----------------------------------------------------------------

  datatype Todo = Todo(id: Id, title: Option<string>, done: bool)
  type View = map<Id, Todo>

  function Shown(id: Id, data: Data): Todo {
    Todo(id, data.title, data.done == Some(true))
  }

  function ApplyEvent(v: View, e: Entry): View {
    match e.op
    case INSERT => v[e.rowId := Shown(e.rowId, AfterData(e))]
    case UPDATE => v[e.rowId := Shown(e.rowId, AfterData(e))]
    case DELETE => v - {e.rowId}
  }

  /** (ev.after && ev.after.data) || {} */
  function AfterData(e: Entry): Data {
    if e.after.Some? then e.after.value.data else Data(None, None)
  }

  function Replay(v: View, events: seq<Entry>): View
    decreases |events|
  {
    if events == [] then v else Replay(ApplyEvent(v, events[0]), events[1..])
  }

  /** What a snapshot of the whole table shows. */
  function Snapshot(t: Table): View {
    map id | id in t :: Shown(id, t[id].data)
  }

  /** What the example's own snapshot shows: one collection of it. */
  function SnapshotOf(t: Table, collection: string): View {
    map id | id in t && t[id].collection == collection :: Shown(id, t[id].data)
  }

  /** The same fold as a mutable map, one message at a time (ws.onmessage). */
  class Page {
    var state: View

    constructor (state: View)
      ensures this.state == state
    {
      this.state := state;
    }

    method OnMessage(e: Entry)
      modifies this
      ensures state == ApplyEvent(old(state), e)
    {
      if e.op == INSERT || e.op == UPDATE {
        state := state[e.rowId := Shown(e.rowId, AfterData(e))];
      } else if e.op == DELETE {
        state := state - {e.rowId};
      }
    }

    method Drain(events: seq<Entry>)
      modifies this
      ensures state == Replay(old(state), events)
    {
      for i := 0 to |events|
        invariant Replay(state, events[i..]) == Replay(old(state), events)
      {
        assert events[i..][1..] == events[i + 1..];
        OnMessage(events[i]);
      }
    }
  }

  // --- One key at a time -------------------------------------------------------------------

  /** The last entry for a key. */
  function Last(events: seq<Entry>, id: Id): Option<Entry> {
    if events == [] then None
    else
      var later := Last(events[1..], id);
      if later.Some? then later else if events[0].rowId == id then Some(events[0]) else None
  }

  function At<T>(m: map<Id, T>, id: Id): Option<T> {
    if id in m then Some(m[id]) else None
  }

  function ShownAt(t: Table, id: Id): Option<Todo> {
    if id in t then Some(Shown(id, t[id].data)) else None
  }

  predicate WellCaptured(e: Entry) {
    (e.op == DELETE) == e.after.None?
  }

  lemma {:induction false} LogIsCaptured(t: Table, changes: seq<Change>)
    requires Valid(t, changes)
    ensures |Log(t, changes)| == |changes|
    ensures forall e :: e in Log(t, changes) ==> WellCaptured(e)
    decreases |changes|
  {
    if changes != [] { LogIsCaptured(Apply(t, changes[0]), changes[1..]); }
  }

  lemma {:induction false} LastIsIn(events: seq<Entry>, id: Id)
    ensures Last(events, id).Some? ==> Last(events, id).value in events && Last(events, id).value.rowId == id
  {
    if events != [] { LastIsIn(events[1..], id); }
  }

  lemma {:induction false} TableAt(t: Table, changes: seq<Change>, id: Id)
    requires Valid(t, changes)
    ensures At(After(t, changes), id)
         == match Last(Log(t, changes), id) case None => At(t, id) case Some(e) => e.after
    decreases |changes|
  {
    if changes != [] {
      TableAt(Apply(t, changes[0]), changes[1..], id);
      assert Log(t, changes)[1..] == Log(Apply(t, changes[0]), changes[1..]);
    }
  }

  lemma {:induction false} ReplayAt(v: View, events: seq<Entry>, id: Id)
    requires forall e :: e in events ==> WellCaptured(e)
    ensures At(Replay(v, events), id)
         == match Last(events, id)
            case None => At(v, id)
            case Some(e) => if e.after.Some? then Some(Shown(id, e.after.value.data)) else None
    decreases |events|
  {
    if events != [] {
      assert events[0] in events;
      ReplayAt(ApplyEvent(v, events[0]), events[1..], id);
    }
  }

  lemma {:induction false} Append(t: Table, a: seq<Change>, b: seq<Change>)
    requires Valid(t, a + b)
    ensures Valid(t, a) && Valid(After(t, a), b)
    ensures Log(t, a + b) == Log(t, a) + Log(After(t, a), b)
    ensures After(t, a + b) == After(After(t, a), b)
    decreases |a|
  {
    hide Happens, Apply, Capture;
    if a == [] {
      assert a + b == b;
    } else {
      assert (a + b)[0] == a[0] && (a + b)[1..] == a[1..] + b;
      Append(Apply(t, a[0]), a[1..], b);
    }
  }

  lemma Split(t: Table, changes: seq<Change>, k: nat)
    requires Valid(t, changes) && k <= |changes|
    ensures Valid(t, changes[..k]) && Valid(After(t, changes[..k]), changes[k..])
    ensures Log(t, changes) == Log(t, changes[..k]) + Log(After(t, changes[..k]), changes[k..])
    ensures After(t, changes) == After(After(t, changes[..k]), changes[k..])
  {
    hide Valid, Log, After;
    assert changes == changes[..k] + changes[k..];
    Append(t, changes[..k], changes[k..]);
  }

  /** The table after the first n changes, and the log entries from j on. */
  function TableAfter(t: Table, changes: seq<Change>, n: nat): Table
    requires n <= |changes|
  {
    After(t, changes[..n])
  }

  function Events(t: Table, changes: seq<Change>, j: nat): seq<Entry>
    requires Valid(t, changes) && j <= |changes|
  {
    Split(t, changes, j);
    Log(TableAfter(t, changes, j), changes[j..])
  }

  lemma ViewsEqual(v: View, w: View)
    requires forall id :: At(v, id) == At(w, id)
    ensures v == w
  {
    forall id ensures id in v <==> id in w {
      assert At(v, id) == At(w, id);
    }
    forall id | id in v ensures v[id] == w[id] {
      assert At(v, id) == At(w, id);
    }
  }

  /** A key that no event from j on mentions has not changed since. */
  lemma UntouchedSince(t: Table, changes: seq<Change>, j: nat, k: nat, id: Id)
    requires Valid(t, changes) && j <= k <= |changes| && Last(Events(t, changes, j), id).None?
    ensures At(TableAfter(t, changes, k), id) == At(After(t, changes), id)
  {
    hide Valid, Log, After, Last;
    Split(t, changes, j);
    var tj, later := TableAfter(t, changes, j), changes[j..];
    Split(tj, later, k - j);
    TableAt(tj, later, id);
    TableAt(tj, later[..k - j], id);
    LastOfPrefix(Log(tj, later[..k - j]), Log(After(tj, later[..k - j]), later[k - j..]), id);
    Between(t, changes, j, k);
  }

  lemma Between(t: Table, changes: seq<Change>, j: nat, k: nat)
    requires Valid(t, changes) && j <= k <= |changes|
    ensures TableAfter(t, changes, k) == After(TableAfter(t, changes, j), changes[j..][..k - j])
  {
    Split(t, changes, k);
    Split(t, changes[..k], j);
    assert changes[..k][..j] == changes[..j] && changes[..k][j..] == changes[j..][..k - j];
  }

  lemma {:induction false} LastOfPrefix(a: seq<Entry>, b: seq<Entry>, id: Id)
    ensures Last(a + b, id) == if Last(b, id).Some? then Last(b, id) else Last(a, id)
  {
    if a == [] {
      assert a + b == b;
    } else {
      assert (a + b)[1..] == a[1..] + b;
      LastOfPrefix(a[1..], b, id);
    }
  }

  // --- Convergence ---------------------------------------------------------------------------

  /** Overlap-tolerant replay: events from any j up to the snapshot's own k may be replayed
      again on top of it, and the view still ends exactly at the table. */
  lemma ReplayConverges(t: Table, changes: seq<Change>, j: nat, k: nat)
    requires Valid(t, changes) && j <= k <= |changes|
    ensures Replay(Snapshot(TableAfter(t, changes, k)), Events(t, changes, j)) == Snapshot(After(t, changes))
  {
    var v := Replay(Snapshot(TableAfter(t, changes, k)), Events(t, changes, j));
    forall id ensures At(v, id) == At(Snapshot(After(t, changes)), id) {
      ReplayedKey(t, changes, j, Snapshot(TableAfter(t, changes, k)), id);
      if Last(Events(t, changes, j), id).None? {
        UntouchedSince(t, changes, j, k, id);
        SameAt(TableAfter(t, changes, k), After(t, changes), id);
      }
    }
    ViewsEqual(v, Snapshot(After(t, changes)));
  }

  /** What the converged view shows: one entry for each row of the table, under the row's id, with its
      title and whether it is done. */
  lemma ConvergedViewShows(t: Table, changes: seq<Change>, j: nat, k: nat)
    requires Valid(t, changes) && j <= k <= |changes|
    ensures var v := Replay(Snapshot(TableAfter(t, changes, k)), Events(t, changes, j));
            var table := After(t, changes);
            && (forall id :: id in v <==> id in table)
            && (forall id :: id in table ==>
                  && v[id].id == id && v[id].title == table[id].data.title
                  && (v[id].done <==> table[id].data.done == Some(true)))
  {
    ReplayConverges(t, changes, j, k);
  }

  lemma SameAt(t: Table, u: Table, id: Id)
    requires At(t, id) == At(u, id)
    ensures At(Snapshot(t), id) == At(Snapshot(u), id)
  {
  }

  /** After replay a touched key shows the table, an untouched one what the view began with. */
  lemma ReplayedKey(t: Table, changes: seq<Change>, j: nat, start: View, id: Id)
    requires Valid(t, changes) && j <= |changes|
    ensures At(Replay(start, Events(t, changes, j)), id)
         == if Last(Events(t, changes, j), id).Some? then ShownAt(After(t, changes), id) else At(start, id)
  {
    Split(t, changes, j);
    var tj := TableAfter(t, changes, j);
    LogIsCaptured(tj, changes[j..]);
    ReplayAt(start, Events(t, changes, j), id);
    TableAt(tj, changes[j..], id);
    var here := At(After(t, changes), id);
    assert here.Some? <==> id in After(t, changes);
  }

  // --- Events in the order of publication ------------------------------------------------------

  /** Log rows by number.  Numbers are only looked up, so they may be taken to count the changes in
      the order in which they took effect, whatever order their events come in. */
  function Rows(log: seq<Entry>, ids: seq<int>): seq<Entry>
    requires forall i :: 0 <= i < |ids| ==> 0 <= ids[i] < |log|
  {
    seq(|ids|, i requires 0 <= i < |ids| => log[ids[i]])
  }

  /** Nothing later is about the same row. */
  predicate Latest(log: seq<Entry>, p: int)
    requires 0 <= p < |log|
  {
    forall q :: p < q < |log| ==> log[q].rowId != log[p].rowId
  }

  /** A publication of the log: any order of distinct rows, as long as events about one row keep
      theirs, and any gaps, as long as the latest event about each row is there. */
  predicate Publication(log: seq<Entry>, ids: seq<int>) {
    && (forall i :: 0 <= i < |ids| ==> 0 <= ids[i] < |log|)
    && (forall i, j :: 0 <= i < j < |ids| && log[ids[i]].rowId == log[ids[j]].rowId ==> ids[i] < ids[j])
    && (forall p :: 0 <= p < |log| && Latest(log, p) ==> p in ids)
  }

  lemma {:induction false} LastIsLatest(log: seq<Entry>, id: Id) returns (p: int)
    ensures Last(log, id) == None ==> forall q :: 0 <= q < |log| ==> log[q].rowId != id
    ensures Last(log, id).Some? ==>
              0 <= p < |log| && log[p].rowId == id && Latest(log, p) && Last(log, id) == Some(log[p])
  {
    p := 0;
    if log != [] {
      var rest := log[1..];
      var q := LastIsLatest(rest, id);
      p := if Last(rest, id).Some? then q + 1 else 0;
      assert forall x :: 1 <= x < |log| ==> log[x] == rest[x - 1];
    }
  }

  /** The last of some events about a row, found by its place. */
  lemma LastByPlace(events: seq<Entry>, y: nat, id: Id)
    requires y < |events| && events[y].rowId == id
    requires forall z :: y < z < |events| ==> events[z].rowId != id
    ensures Last(events, id) == Some(events[y])
  {
    var p := LastIsLatest(events, id);
  }

  lemma NoneByPlace(events: seq<Entry>, id: Id)
    requires forall z :: 0 <= z < |events| ==> events[z].rowId != id
    ensures Last(events, id) == None
  {
    var p := LastIsLatest(events, id);
  }

  lemma EventsAreTail(t: Table, changes: seq<Change>, k: nat)
    requires Valid(t, changes) && k <= |changes|
    ensures |Log(t, changes)| == |changes| && Events(t, changes, k) == Log(t, changes)[k..]
  {
    Split(t, changes, k);
    LogIsCaptured(t, changes);
    LogIsCaptured(t, changes[..k]);
  }

  /** What one row shows after replaying the events published from j on onto a snapshot that has
      everything published before. */
  lemma PublishedKey(t: Table, changes: seq<Change>, k: nat, ids: seq<int>, j: nat, id: Id)
    requires Valid(t, changes) && k <= |changes| && j <= |ids|
    requires Publication(Log(t, changes), ids) && forall i :: 0 <= i < j ==> ids[i] < k
    ensures var log := Log(t, changes);
            var e := Last(Rows(log, ids[j..]), id);
            if e.Some? then e == Last(log, id) else At(TableAfter(t, changes, k), id) == At(After(t, changes), id)
  {
    var log := Log(t, changes);
    var sent := Rows(log, ids[j..]);
    var p := LastIsLatest(log, id);
    if Last(log, id).Some? {
      var x :| 0 <= x < |ids| && ids[x] == p;
      forall z | 0 <= z < |sent| && z > x - j ensures sent[z].rowId != id {
        assert sent[z] == log[ids[j + z]];
      }
      if x >= j {
        assert sent[x - j] == log[p];
        LastByPlace(sent, x - j, id);
      } else {
        NoneByPlace(sent, id);
        assert p < k;
        Unmentioned(t, changes, k, id);
      }
    } else {
      NoneByPlace(sent, id);
      Unmentioned(t, changes, k, id);
    }
  }

  lemma Unmentioned(t: Table, changes: seq<Change>, k: nat, id: Id)
    requires Valid(t, changes) && k <= |changes|
    requires forall q :: k <= q < |Log(t, changes)| ==> Log(t, changes)[q].rowId != id
    ensures At(TableAfter(t, changes, k), id) == At(After(t, changes), id)
  {
    EventsAreTail(t, changes, k);
    NoneByPlace(Events(t, changes, k), id);
    UntouchedSince(t, changes, k, k, id);
  }

  /** Replay needs no order but that of each row: whatever publication of the log the events come
      from, replaying it from any point onto a snapshot that has all that was published before ends
      exactly at the table. */
  lemma PublicationConverges(t: Table, changes: seq<Change>, k: nat, ids: seq<int>, j: nat)
    requires Valid(t, changes) && k <= |changes| && j <= |ids|
    requires Publication(Log(t, changes), ids) && forall i :: 0 <= i < j ==> ids[i] < k
    ensures Replay(Snapshot(TableAfter(t, changes, k)), Rows(Log(t, changes), ids[j..])) == Snapshot(After(t, changes))
  {
    var log, start := Log(t, changes), Snapshot(TableAfter(t, changes, k));
    var sent := Rows(log, ids[j..]);
    var v, w := Replay(start, sent), Snapshot(After(t, changes));
    LogIsCaptured(t, changes);
    forall e | e in sent ensures WellCaptured(e) {
      var i :| 0 <= i < |sent| && sent[i] == e;
      assert e == log[ids[j..][i]] && e in log;
    }
    forall id ensures At(v, id) == At(w, id) {
      PublishedKey(t, changes, k, ids, j, id);
      ReplayAt(start, sent, id);
      TableAt(t, changes, id);
      ShownIs(After(t, changes), id);
      if Last(sent, id).None? { SameAt(TableAfter(t, changes, k), After(t, changes), id); }
    }
    ViewsEqual(v, w);
  }

  lemma ShownIs(t: Table, id: Id)
    ensures At(Snapshot(t), id) == match At(t, id) case None => None case Some(doc) => Some(Shown(id, doc.data))
  {
  }

  // --- A gap, and what can be known of it when connecting ----------------------------------------

  /** A gap: the snapshot is of k but events only start at j > k, as when the page loads its
      list before it connects.  The view ends at the table exactly when every key whose row
      now looks different from the snapshot is mentioned again after the gap. */
  lemma GapConvergesIff(t: Table, changes: seq<Change>, k: nat, j: nat)
    requires Valid(t, changes) && k <= j <= |changes|
    ensures Replay(Snapshot(TableAfter(t, changes, k)), Events(t, changes, j)) == Snapshot(After(t, changes))
       <==> forall id :: ShownAt(TableAfter(t, changes, k), id) != ShownAt(TableAfter(t, changes, j), id) ==>
              Last(Events(t, changes, j), id).Some?
  {
    var start, events := Snapshot(TableAfter(t, changes, k)), Events(t, changes, j);
    var v, w := Replay(start, events), Snapshot(After(t, changes));
    forall id
      ensures At(v, id) == At(w, id) <==>
        (Last(events, id).Some? || ShownAt(TableAfter(t, changes, k), id) == ShownAt(TableAfter(t, changes, j), id))
    {
      ReplayedKey(t, changes, j, start, id);
      if Last(events, id).None? {
        UntouchedSince(t, changes, j, j, id);
        SameAt(TableAfter(t, changes, j), After(t, changes), id);
      }
    }
    if forall id :: At(v, id) == At(w, id) {
      ViewsEqual(v, w);
    }
  }

  /** What can be known when connecting: whatever still happens, the view will end at the table, if
      and only if the gap changed nothing the view shows. */
  lemma GapHarmlessIff(t: Table, changes: seq<Change>, k: nat)
    requires Valid(t, changes) && k <= |changes|
    ensures (forall more :: Valid(t, changes + more) ==>
               Replay(Snapshot(TableAfter(t, changes + more, k)), Events(t, changes + more, |changes|))
               == Snapshot(After(t, changes + more)))
       <==> Snapshot(TableAfter(t, changes, k)) == Snapshot(After(t, changes))
  {
    var j := |changes|;
    var same := Snapshot(TableAfter(t, changes, k)) == Snapshot(After(t, changes));
    if same {
      forall more | Valid(t, changes + more)
        ensures Replay(Snapshot(TableAfter(t, changes + more, k)), Events(t, changes + more, j))
             == Snapshot(After(t, changes + more))
      {
        GapConvergesIff(t, changes + more, k, j);
        Prefixes(t, changes, more, k);
        forall id
          ensures ShownAt(TableAfter(t, changes + more, k), id) == ShownAt(TableAfter(t, changes + more, j), id)
        {
          ShownIsAt(TableAfter(t, changes, k), id);
          ShownIsAt(After(t, changes), id);
        }
      }
    } else {
      assert changes + [] == changes;
      Split(t, changes, j);
      assert changes[j..] == [] && changes[..j] == changes;
      assert Events(t, changes + [], j) == [];
      assert Replay(Snapshot(TableAfter(t, changes + [], k)), []) == Snapshot(TableAfter(t, changes, k));
    }
  }

  lemma Prefixes(t: Table, changes: seq<Change>, more: seq<Change>, k: nat)
    requires k <= |changes|
    ensures TableAfter(t, changes + more, k) == TableAfter(t, changes, k)
    ensures TableAfter(t, changes + more, |changes|) == After(t, changes)
  {
    assert (changes + more)[..k] == changes[..k];
    assert (changes + more)[..|changes|] == changes;
  }

  lemma ShownIsAt(t: Table, id: Id)
    ensures ShownAt(t, id) == At(Snapshot(t), id)
  {
  }

  /** The shortest gap: one insert that falls between the snapshot and the connection. */
  lemma MissedInsert(id: Id, doc: Doc)
    ensures Valid(map[], [Insert(id, doc)])
    ensures Replay(Snapshot(TableAfter(map[], [Insert(id, doc)], 0)), Events(map[], [Insert(id, doc)], 1))
         != Snapshot(After(map[], [Insert(id, doc)]))
  {
    var changes := [Insert(id, doc)];
    assert changes[..0] == [] && changes[1..] == [];
    assert id in After(map[], changes);
    Split(map[], changes, 1);
    assert changes[..1] == changes;
  }

  /** The subscription carries every collection while the example's list shows one.  Its view
      ends at that list exactly when no event of the replayed stretch leaves behind a row of
      another collection. */
  lemma CollectionConvergesIff(t: Table, changes: seq<Change>, j: nat, k: nat, collection: string)
    requires Valid(t, changes) && j <= k <= |changes|
    ensures Replay(SnapshotOf(TableAfter(t, changes, k), collection), Events(t, changes, j))
         == SnapshotOf(After(t, changes), collection)
       <==> forall id :: Last(Events(t, changes, j), id).Some? && id in After(t, changes) ==>
              After(t, changes)[id].collection == collection
  {
    var end, events := After(t, changes), Events(t, changes, j);
    var start := SnapshotOf(TableAfter(t, changes, k), collection);
    var v, w := Replay(start, events), SnapshotOf(end, collection);
    forall id
      ensures At(v, id) == At(w, id) <==>
        (Last(events, id).Some? && id in end ==> end[id].collection == collection)
    {
      ReplayedKey(t, changes, j, start, id);
      if Last(events, id).None? {
        UntouchedSince(t, changes, j, k, id);
        SameAtOf(TableAfter(t, changes, k), end, collection, id);
      }
    }
    if forall id :: At(v, id) == At(w, id) {
      ViewsEqual(v, w);
    }
  }

  lemma SameAtOf(t: Table, u: Table, collection: string, id: Id)
    requires At(t, id) == At(u, id)
    ensures At(SnapshotOf(t, collection), id) == At(SnapshotOf(u, collection), id)
  {
  }
}
