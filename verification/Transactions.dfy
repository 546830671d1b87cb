/**
 Where the log's order comes from: transactions that write rows and log them, and notify at commit
 (migrations/tenant/0001_init.up.sql:94-104, 127-173).  A row written by an open transaction is
 locked for everybody else; log ids are drawn when a row is written; notifications go out when a
 transaction commits, transaction by transaction, in the order of its writes.
 */
module Transactions {
  import opened Wrappers
  import opened ChangeReplay

  type TxId = int

  /** A row change with the log row the trigger inserted for it, not visible before the commit. */
  datatype Write = Write(logId: int, change: Change, entry: Entry)

  /** `committed` are the changes in the order of their commits and `published` the log ids in the
      order of their notifications. */
  datatype State = State(table: Table, log: map<int, Entry>, open: map<TxId, seq<Write>>, next: int,
                         committed: seq<Change>, published: seq<int>)

  datatype Step = Modify(tx: TxId, change: Change) | Commit(tx: TxId) | Abort(tx: TxId)

  function Changes(ws: seq<Write>): seq<Change> {
    seq(|ws|, i requires 0 <= i < |ws| => ws[i].change)
  }

  function Ids(ws: seq<Write>): seq<int> {
    seq(|ws|, i requires 0 <= i < |ws| => ws[i].logId)
  }

  function WritesOf(s: State, tx: TxId): seq<Write> {
    if tx in s.open then s.open[tx] else []
  }

  /** What a transaction sees: the committed table under its own writes. */
  function View(s: State, tx: TxId): Table {
    After(s.table, Changes(WritesOf(s, tx)))
  }

  predicate Touches(ws: seq<Write>, id: Id) {
    exists i :: 0 <= i < |ws| && ws[i].change.id == id
  }

  /** A change of a row that somebody else has written waits. */
  predicate Enabled(s: State, step: Step) {
    match step
    case Modify(tx, c) =>
      && Happens(View(s, tx), c)
      && forall other :: other in s.open && other != tx ==> !Touches(s.open[other], c.id)
    case Commit(tx) => true
    case Abort(tx) => true
  }

  function Logged(log: map<int, Entry>, ws: seq<Write>): map<int, Entry> {
    if ws == [] then log else Logged(log, ws[..|ws| - 1])[ws[|ws| - 1].logId := ws[|ws| - 1].entry]
  }

  function Do(s: State, step: Step): State
    requires Enabled(s, step)
  {
    match step
    case Modify(tx, c) =>
      var w := Write(s.next, c, Capture(View(s, tx), c));
      s.(open := s.open[tx := WritesOf(s, tx) + [w]], next := s.next + 1)
    case Commit(tx) =>
      var ws := WritesOf(s, tx);
      State(After(s.table, Changes(ws)), Logged(s.log, ws), s.open - {tx}, s.next,
            s.committed + Changes(ws), s.published + Ids(ws))
    case Abort(tx) => s.(open := s.open - {tx})
  }

  predicate Possible(s: State, steps: seq<Step>)
    decreases |steps|
  {
    steps == [] || (Enabled(s, steps[0]) && Possible(Do(s, steps[0]), steps[1..]))
  }

  function Run(s: State, steps: seq<Step>): State
    requires Possible(s, steps)
    decreases |steps|
  {
    if steps == [] then s else Run(Do(s, steps[0]), steps[1..])
  }

  function Start(t: Table): State { State(t, map[], map[], 0, [], []) }

  // --- What every run keeps ---------------------------------------------------------------------------

  /** A transaction's writes fit the committed table, and its log rows say what they do. */
  predicate Fits(t: Table, ws: seq<Write>) {
    && Valid(t, Changes(ws))
    && Log(t, Changes(ws)) == seq(|ws|, i requires 0 <= i < |ws| => ws[i].entry)
  }

  predicate Fresh(ids: seq<int>, bound: int) {
    && (forall i :: 0 <= i < |ids| ==> ids[i] < bound)
    && (forall i, j :: 0 <= i < j < |ids| ==> ids[i] != ids[j])
  }

  predicate Apart(a: seq<Write>, b: seq<Write>) {
    forall i, j :: 0 <= i < |a| && 0 <= j < |b| ==> a[i].change.id != b[j].change.id && a[i].logId != b[j].logId
  }

  /** What was published, read in its order, is the log of the committed changes. */
  predicate InStep(t: Table, s: State) {
    && Valid(t, s.committed)
    && s.table == After(t, s.committed)
    && |s.published| == |s.committed| == |Log(t, s.committed)|
    && forall i :: 0 <= i < |s.published| ==> s.published[i] in s.log && s.log[s.published[i]] == Log(t, s.committed)[i]
  }

  predicate Good(t: Table, s: State) {
    && InStep(t, s)
    && Fresh(s.published, s.next)
    && (forall tx :: tx in s.open ==> Fits(s.table, s.open[tx]) && Fresh(Ids(s.open[tx]), s.next))
    && (forall tx :: tx in s.open ==> Unpublished(s.published, s.open[tx]))
    && (forall tx, other :: tx in s.open && other in s.open && tx != other ==> Apart(s.open[tx], s.open[other]))
  }

  predicate Unpublished(published: seq<int>, ws: seq<Write>) {
    forall i, j :: 0 <= i < |published| && 0 <= j < |ws| ==> published[i] != ws[j].logId
  }

  lemma {:induction false} ValidAppend(t: Table, a: seq<Change>, b: seq<Change>)
    requires Valid(t, a) && Valid(After(t, a), b)
    ensures Valid(t, a + b) && After(t, a + b) == After(After(t, a), b)
    ensures Log(t, a + b) == Log(t, a) + Log(After(t, a), b)
    decreases |a|
  {
    hide Happens, Apply, Capture;
    if a == [] {
      assert a + b == b;
    } else {
      assert (a + b)[1..] == a[1..] + b;
      ValidAppend(Apply(t, a[0]), a[1..], b);
    }
  }

  /** Changes do not care about rows they do not touch. */
  lemma {:induction false} SameRowsSameLog(t: Table, u: Table, cs: seq<Change>)
    requires Valid(t, cs) && forall i :: 0 <= i < |cs| ==> At(t, cs[i].id) == At(u, cs[i].id)
    ensures Valid(u, cs) && Log(u, cs) == Log(t, cs)
    decreases |cs|
  {
    if cs != [] {
      var c, rest := cs[0], cs[1..];
      assert At(t, c.id) == At(u, c.id);
      forall i | 0 <= i < |rest| ensures At(Apply(t, c), rest[i].id) == At(Apply(u, c), rest[i].id) {
        assert At(t, cs[i + 1].id) == At(u, cs[i + 1].id);
      }
      SameRowsSameLog(Apply(t, c), Apply(u, c), rest);
    }
  }

  lemma {:induction false} UntouchedRow(t: Table, cs: seq<Change>, id: Id)
    requires forall i :: 0 <= i < |cs| ==> cs[i].id != id
    ensures At(After(t, cs), id) == At(t, id)
    decreases |cs|
  {
    if cs != [] {
      assert cs[0].id != id;
      UntouchedRow(Apply(t, cs[0]), cs[1..], id);
    }
  }

  /** Another transaction's commit leaves an open one's writes fitting. */
  lemma OtherCommits(t: Table, ws: seq<Write>, mine: seq<Write>)
    requires Fits(t, mine) && Apart(ws, mine)
    ensures Fits(After(t, Changes(ws)), mine)
  {
    forall i | 0 <= i < |mine| ensures At(t, Changes(mine)[i].id) == At(After(t, Changes(ws)), Changes(mine)[i].id) {
      UntouchedRow(t, Changes(ws), mine[i].change.id);
    }
    SameRowsSameLog(t, After(t, Changes(ws)), Changes(mine));
  }

  lemma {:induction false} LoggedAt(log: map<int, Entry>, ws: seq<Write>, bound: int)
    requires Fresh(Ids(ws), bound)
    ensures forall i :: 0 <= i < |ws| ==> ws[i].logId in Logged(log, ws) && Logged(log, ws)[ws[i].logId] == ws[i].entry
    ensures forall id :: id in log && id !in Ids(ws) ==> id in Logged(log, ws) && Logged(log, ws)[id] == log[id]
    decreases |ws|
  {
    if ws != [] {
      var rest, last := ws[..|ws| - 1], ws[|ws| - 1];
      assert Ids(ws) == Ids(rest) + [last.logId];
      assert forall i :: 0 <= i < |rest| ==> Ids(ws)[i] == Ids(rest)[i];
      LoggedAt(log, rest, bound);
      forall i | 0 <= i < |rest| ensures ws[i].logId != last.logId {
        assert Ids(ws)[i] != Ids(ws)[|ws| - 1];
      }
    }
  }

  lemma OneMoreFits(t: Table, ws: seq<Write>, c: Change, logId: int)
    requires Fits(t, ws) && Happens(After(t, Changes(ws)), c)
    ensures Fits(t, ws + [Write(logId, c, Capture(After(t, Changes(ws)), c))])
  {
    var u := After(t, Changes(ws));
    var more := ws + [Write(logId, c, Capture(u, c))];
    assert Changes(more) == Changes(ws) + [c];
    assert [c][1..] == [] && Valid(Apply(u, c), []) && Log(Apply(u, c), []) == [];
    assert Log(u, [c]) == [Capture(u, c)] + [];
    ValidAppend(t, Changes(ws), [c]);
  }

  lemma ModifyKeepsGood(t: Table, s: State, tx: TxId, c: Change)
    requires Good(t, s) && Enabled(s, Modify(tx, c))
    ensures Good(t, Do(s, Modify(tx, c)))
  {
    var ws, d := WritesOf(s, tx), Do(s, Modify(tx, c));
    assert Fits(s.table, ws) && Fresh(Ids(ws), s.next) && Unpublished(s.published, ws) by {
      if tx !in s.open { assert Changes(ws) == [] && Log(s.table, []) == []; }
    }
    OneMoreFits(s.table, ws, c, s.next);
    OneMoreFresh(s.published, ws, d.open[tx][|ws|]);
    hide Fits, InStep, Apart, Unpublished, Fresh, Touches;
    forall other | other in d.open && other != tx
      ensures Apart(d.open[tx], d.open[other]) && Apart(d.open[other], d.open[tx])
      ensures Fresh(Ids(d.open[other]), d.next)
    {
      assert Apart(ws, s.open[other]) by { NothingApart(s.open[other]); }
      OneMoreApart(ws, s.open[other], d.open[tx][|ws|]);
    }
    assert InStep(t, d) by { SameCommitted(t, s, d); }
  }

  lemma OneMoreFresh(published: seq<int>, ws: seq<Write>, w: Write)
    requires Fresh(Ids(ws), w.logId) && Unpublished(published, ws) && Fresh(published, w.logId)
    ensures Fresh(Ids(ws + [w]), w.logId + 1) && Unpublished(published, ws + [w]) && Fresh(published, w.logId + 1)
  {
    assert Ids(ws + [w]) == Ids(ws) + [w.logId];
  }

  lemma OneMoreApart(ws: seq<Write>, mine: seq<Write>, w: Write)
    requires Apart(ws, mine) && Fresh(Ids(mine), w.logId) && !Touches(mine, w.change.id)
    ensures Apart(ws + [w], mine) && Apart(mine, ws + [w]) && Fresh(Ids(mine), w.logId + 1)
  {
    forall j | 0 <= j < |mine| ensures mine[j].logId < w.logId {
      assert Ids(mine)[j] == mine[j].logId;
    }
  }

  lemma SameCommitted(t: Table, s: State, d: State)
    requires InStep(t, s)
    requires d.table == s.table && d.log == s.log && d.committed == s.committed && d.published == s.published
    ensures InStep(t, d)
  {
  }

  lemma PublishedInStep(t: Table, s: State, ws: seq<Write>)
    requires InStep(t, s) && Fits(s.table, ws) && Fresh(Ids(ws), s.next) && Unpublished(s.published, ws)
    ensures InStep(t, State(After(s.table, Changes(ws)), Logged(s.log, ws), s.open, s.next,
                            s.committed + Changes(ws), s.published + Ids(ws)))
  {
    hide Valid, Log, After, Logged, Fresh;
    ValidAppend(t, s.committed, Changes(ws));
    LoggedAt(s.log, ws, s.next);
    IdsAre(ws);
    assert forall i :: 0 <= i < |s.published| ==> s.published[i] !in Ids(ws);
    var before, added, log := |s.published|, Log(s.table, Changes(ws)), Logged(s.log, ws);
    var published, all := s.published + Ids(ws), Log(t, s.committed + Changes(ws));
    assert |added| == |ws| && all == Log(t, s.committed) + added;
    forall i | 0 <= i < |published| ensures published[i] in log && log[published[i]] == all[i] {
      if i >= before {
        assert published[i] == ws[i - before].logId && all[i] == added[i - before] == ws[i - before].entry;
      }
    }
  }

  lemma IdsAre(ws: seq<Write>)
    ensures forall id :: id in Ids(ws) <==> exists j :: 0 <= j < |ws| && ws[j].logId == id
  {
    forall j | 0 <= j < |ws| ensures ws[j].logId in Ids(ws) {
      assert Ids(ws)[j] == ws[j].logId;
    }
  }

  lemma FreshTogether(published: seq<int>, ws: seq<Write>, bound: int)
    requires Fresh(published, bound) && Fresh(Ids(ws), bound) && Unpublished(published, ws)
    ensures Fresh(published + Ids(ws), bound)
  {
    var all := published + Ids(ws);
    forall i, j | 0 <= i < j < |all| ensures all[i] != all[j] {
      if i < |published| <= j {
        assert published[i] != ws[j - |published|].logId;
      } else if i >= |published| {
        assert Ids(ws)[i - |published|] != Ids(ws)[j - |published|];
      }
    }
  }

  lemma StillUnpublished(published: seq<int>, ws: seq<Write>, mine: seq<Write>)
    requires Unpublished(published, mine) && Apart(ws, mine)
    ensures Unpublished(published + Ids(ws), mine)
  {
  }

  lemma CommitKeepsGood(t: Table, s: State, tx: TxId)
    requires Good(t, s)
    ensures Good(t, Do(s, Commit(tx)))
  {
    var ws, d := WritesOf(s, tx), Do(s, Commit(tx));
    assert Fits(s.table, ws) && Fresh(Ids(ws), s.next) && Unpublished(s.published, ws) by {
      if tx !in s.open { assert Changes(ws) == [] && Log(s.table, []) == []; }
    }
    PublishedInStep(t, s, ws);
    FreshTogether(s.published, ws, s.next);
    hide InStep, Fits, Fresh, Unpublished, Apart, Logged;
    assert InStep(t, d) by { SameProgress(t, s, tx); }
    forall other | other in d.open
      ensures Fits(d.table, d.open[other]) && Fresh(Ids(d.open[other]), d.next)
      ensures Unpublished(d.published, d.open[other])
    {
      assert Apart(ws, s.open[other]) by { NothingApart(s.open[other]); }
      OtherCommits(s.table, ws, s.open[other]);
      StillUnpublished(s.published, ws, s.open[other]);
    }
  }

  lemma NothingApart(ws: seq<Write>)
    ensures Apart([], ws)
  {
  }

  lemma SameProgress(t: Table, s: State, tx: TxId)
    requires var ws := WritesOf(s, tx);
             InStep(t, State(After(s.table, Changes(ws)), Logged(s.log, ws), s.open, s.next,
                             s.committed + Changes(ws), s.published + Ids(ws)))
    ensures InStep(t, Do(s, Commit(tx)))
  {
  }

  lemma {:induction false} EveryRun(t: Table, s: State, steps: seq<Step>)
    requires Good(t, s) && Possible(s, steps)
    ensures Good(t, Run(s, steps))
    decreases |steps|
  {
    if steps != [] {
      match steps[0] {
        case Modify(tx, c) => ModifyKeepsGood(t, s, tx, c);
        case Commit(tx) => CommitKeepsGood(t, s, tx);
        case Abort(_) =>
      }
      hide Good, Enabled, Do;
      EveryRun(t, Do(s, steps[0]), steps[1..]);
    }
  }

  /** Over every interleaving of transactions, although log ids are drawn out of order and may leave
      gaps: the published log rows, looked up one after the other, are the log of changes that turn the
      table as it was into the table as it is, one at a time. */
  lemma PublishedIsTheLog(t: Table, steps: seq<Step>)
    requires Possible(Start(t), steps)
    ensures var s := Run(Start(t), steps);
            && Valid(t, s.committed) && s.table == After(t, s.committed)
            && |s.published| == |Log(t, s.committed)| == |s.committed|
            && Fresh(s.published, s.next)
            && forall i :: 0 <= i < |s.published| ==>
                 s.published[i] in s.log && s.log[s.published[i]] == Log(t, s.committed)[i]
  {
    EveryRun(t, Start(t), steps);
  }

  /** What is committed and published stays at the front. */
  lemma {:induction false} CommittedGrows(s: State, steps: seq<Step>)
    requires Possible(s, steps)
    ensures s.committed <= Run(s, steps).committed && s.published <= Run(s, steps).published
    decreases |steps|
  {
    if steps == [] {
      assert Run(s, steps) == s;
    } else {
      var m := Do(s, steps[0]);
      assert s.committed <= m.committed && s.published <= m.published;
      hide Do, Enabled;
      CommittedGrows(m, steps[1..]);
    }
  }
}
