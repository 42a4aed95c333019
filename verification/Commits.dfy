/** Overlapping transactions and a reader that keeps pulling: each transaction picks its server time when it begins,
    draws change ids as it writes, and becomes visible when it commits. */
module CommitSpec {
  import opened Records
  import opened Tables
  import opened PullSpec

  datatype Tx = Tx(now: Time, rows: seq<LogRow>)

  /** The transactions under way, the visible change log, the next change id, and one reader. */
  datatype World = World(open: map<nat, Tx>, committed: seq<LogRow>, nextId: nat, cursor: ParsedCursor,
                         delivered: seq<LogRow>)

  const START := World(map[], [], 1, FromStart, [])

  datatype Event =
    | Begin(tx: nat, now: Time)
    | Append(tx: nat, record: Record)
    | Commit(tx: nat)
    | Abort(tx: nat)
    | PullPage(limit: nat)

  /** The page an unfiltered reader is given. */
  function Page(w: World, limit: nat): seq<LogRow> {
    var sorted := InCursorOrder(w.committed);
    var p := Position(sorted, w.cursor);
    sorted[p..Min(p + limit, |sorted|)]
  }

  function Apply(w: World, e: Event): Option<World> {
    match e
    case Begin(tx, now) =>
      if tx in w.open then None else Some(w.(open := w.open[tx := Tx(now, [])]))
    case Append(tx, rec) =>
      if tx !in w.open then None
      else
        var row := LogRow(w.nextId, rec, w.open[tx].now);
        Some(w.(open := w.open[tx := Tx(w.open[tx].now, w.open[tx].rows + [row])], nextId := w.nextId + 1))
    case Commit(tx) =>
      if tx !in w.open then None
      else Some(w.(open := w.open - {tx}, committed := w.committed + w.open[tx].rows))
    case Abort(tx) =>
      if tx !in w.open then None else Some(w.(open := w.open - {tx}))
    case PullPage(limit) =>
      var page := Page(w, limit);
      if page == [] then Some(w)
      else Some(w.(cursor := CursorOf(page[|page| - 1]), delivered := w.delivered + page))
  }

  function Run(w: World, events: seq<Event>): Option<World> {
    if events == [] then Some(w)
    else
      var before :- Run(w, events[..|events| - 1]);
      Apply(before, events[|events| - 1])
  }
}

module CommitProofs {
  import opened Records
  import opened Tables
  import opened PullSpec
  import opened PullProofs
  import opened CommitSpec

  /** Visible, not delivered, and no longer ahead of the reader. */
  ghost predicate Missed(w: World, row: LogRow) {
    row in w.committed && row !in w.delivered && !After(row, w.cursor)
  }

  /** No id of one list occurs in the other. */
  ghost predicate Apart(a: seq<LogRow>, b: seq<LogRow>) {
    forall r, s | r in a && s in b :: r.changeId != s.changeId
  }

  ghost predicate Below(rows: seq<LogRow>, nextId: nat) {
    forall r | r in rows :: r.changeId < nextId
  }

  /** Change ids are unique, across visible rows and open transactions. */
  ghost predicate UniqueIds(w: World) {
    && DistinctIds(w.committed) && Below(w.committed, w.nextId)
    && (forall t | t in w.open ::
          DistinctIds(w.open[t].rows) && Below(w.open[t].rows, w.nextId) && Apart(w.open[t].rows, w.committed))
    && (forall t, u | t in w.open && u in w.open && t != u :: Apart(w.open[t].rows, w.open[u].rows))
  }

  /** All rows of a transaction carry its time. */
  ghost predicate Stamped(w: World) {
    forall t, row | t in w.open && row in w.open[t].rows :: row.at == w.open[t].now
  }

  /** The reader has a sorted part of the visible log, and its cursor stands at the last row it has. */
  ghost predicate ReaderSound(w: World) {
    && Sorted(w.delivered)
    && (forall row | row in w.delivered :: row in w.committed && !After(row, w.cursor))
    && w.cursor == (if w.delivered == [] then FromStart else CursorOf(w.delivered[|w.delivered| - 1]))
  }

  /** What every run keeps. */
  ghost predicate Sound(w: World) {
    UniqueIds(w) && Stamped(w) && ReaderSound(w)
  }

  /** The visible log in cursor order. */
  lemma SortedLog(w: World)
    requires DistinctIds(w.committed)
    ensures Sorted(InCursorOrder(w.committed)) && forall row ::
      row in w.committed <==> row in InCursorOrder(w.committed)
  {
    hide InCursorOrder, DistinctIds, Sorted;
    CursorOrderSorts(w.committed);
    SortedMembers(w.committed, InCursorOrder(w.committed));
  }

  /** A page holds visible rows after the cursor, and every such row is on it or after its last row. */
  lemma PageRows(w: World, limit: nat)
    requires DistinctIds(w.committed)
    ensures Sorted(Page(w, limit)) && forall row | row in Page(w, limit) :: row in w.committed && After(row, w.cursor)
    ensures Page(w, limit) != [] ==> forall row | row in w.committed && After(row, w.cursor) ::
      row in Page(w, limit) || After(row, CursorOf(Page(w, limit)[|Page(w, limit)| - 1]))
  {
    SortedLog(w);
    hide InCursorOrder, DistinctIds, Position, Sorted, After;
    SliceRows(InCursorOrder(w.committed), w.cursor, limit);
  }

  lemma SortedMembers(log: seq<LogRow>, sorted: seq<LogRow>)
    requires multiset(sorted) == multiset(log)
    ensures forall row :: row in log <==> row in sorted
  {
    assert forall row :: row in log <==> row in multiset(log);
    assert forall row :: row in sorted <==> row in multiset(sorted);
  }

  ghost function Slice(sorted: seq<LogRow>, cursor: ParsedCursor, limit: nat): seq<LogRow> {
    var p := Position(sorted, cursor);
    sorted[p..Min(p + limit, |sorted|)]
  }

  /** A page of a sorted log: rows after the cursor, and every such row is on it or after its last row. */
  lemma SliceRows(sorted: seq<LogRow>, cursor: ParsedCursor, limit: nat)
    requires Sorted(sorted)
    ensures var page := Slice(sorted, cursor, limit);
      && Sorted(page)
      && (forall row | row in page :: row in sorted && After(row, cursor))
      && (page != [] ==> forall row | row in sorted && After(row, cursor) ::
          row in page || After(row, CursorOf(page[|page| - 1])))
  {
    var p := Position(sorted, cursor);
    var page := Slice(sorted, cursor, limit);
    assert forall k | 0 <= k < |page| :: page[k] == sorted[p + k];
    hide Position, After, Precedes;
    forall k | 0 <= k < |page|
      ensures page[k] in sorted && After(page[k], cursor)
    {
      assert page[k] == sorted[p + k];
      PositionSplits(sorted, cursor, p + k);
    }
    if page != [] {
      forall row | row in sorted && After(row, cursor)
        ensures row in page || After(row, CursorOf(page[|page| - 1]))
      {
        SliceCovers(sorted, cursor, limit, row);
      }
    }
    hide Slice;
  }

  lemma SliceCovers(sorted: seq<LogRow>, cursor: ParsedCursor, limit: nat, row: LogRow)
    requires Sorted(sorted) && row in sorted && After(row, cursor) && Slice(sorted, cursor, limit) != []
    ensures var page := Slice(sorted, cursor, limit); row in page || After(row, CursorOf(page[|page| - 1]))
  {
    var p := Position(sorted, cursor);
    var page := Slice(sorted, cursor, limit);
    hide Position, After, Precedes;
    var i: nat :| i < |sorted| && sorted[i] == row;
    PositionSplits(sorted, cursor, i);
    if i < p + |page| {
      assert page[i - p] == row;
    } else {
      assert page[|page| - 1] == sorted[p + |page| - 1];
      PrecedesIsAfter(sorted[p + |page| - 1], sorted[i]);
    }
  }

  lemma PrecedesIsAfter(a: LogRow, b: LogRow)
    ensures Precedes(a, b) <==> After(b, CursorOf(a))
  {
  }

  lemma SortedFollows(a: seq<LogRow>, b: seq<LogRow>)
    requires Sorted(a) && Sorted(b)
    requires a != [] ==> forall row | row in b :: Precedes(a[|a| - 1], row)
    ensures Sorted(a + b)
  {
    var s := a + b;
    forall i, j | 0 <= i < j < |s|
      ensures Precedes(s[i], s[j])
    {
      if i < |a| <= j {
        assert b[j - |a|] in b;
        assert Precedes(a[|a| - 1], s[j]);
      }
    }
  }

  lemma PullKeepsReader(w: World, limit: nat)
    requires Sound(w)
    ensures ReaderSound(Apply(w, PullPage(limit)).value)
  {
    var page := Page(w, limit);
    PageRows(w, limit);
    if page != [] {
      var after := Apply(w, PullPage(limit)).value;
      hide Page, UniqueIds, Stamped;
      var last := page[|page| - 1];
      assert last in page;
      SortedFollows(w.delivered, page);
      forall row | row in after.delivered
        ensures row in w.committed && !After(row, after.cursor)
      {
        if row in page {
          NotAfterLast(page, row);
        }
      }
    }
  }

  lemma NotAfterLast(page: seq<LogRow>, row: LogRow)
    requires Sorted(page) && row in page
    ensures !After(row, CursorOf(page[|page| - 1]))
  {
    var i :| 0 <= i < |page| && page[i] == row;
    assert i < |page| - 1 ==> Precedes(page[i], page[|page| - 1]);
  }

  lemma AppendKeepsIds(w: World, tx: nat, rec: Record)
    requires UniqueIds(w) && tx in w.open
    ensures UniqueIds(Apply(w, Append(tx, rec)).value)
  {
    var after := Apply(w, Append(tx, rec)).value;
    var row := LogRow(w.nextId, rec, w.open[tx].now);
    DistinctAppend(w.open[tx].rows, row, w.nextId);
    ApartAppend(w.open[tx].rows, row, w.committed, w.nextId);
    forall t | t in w.open
      ensures Below(w.open[t].rows, after.nextId)
      ensures t != tx ==> Apart(after.open[tx].rows, w.open[t].rows) && Apart(w.open[t].rows, after.open[tx].rows)
    {
      if t != tx {
        ApartAppend(w.open[tx].rows, row, w.open[t].rows, w.nextId);
      }
    }
    assert Below(w.committed, after.nextId);
    hide DistinctIds, Apart, Below;
  }

  lemma DistinctAppend(rows: seq<LogRow>, row: LogRow, nextId: nat)
    requires DistinctIds(rows) && Below(rows, nextId) && row.changeId == nextId
    ensures DistinctIds(rows + [row]) && Below(rows + [row], nextId + 1)
  {
  }

  lemma ApartAppend(rows: seq<LogRow>, row: LogRow, others: seq<LogRow>, nextId: nat)
    requires Apart(rows, others) && Below(others, nextId) && row.changeId == nextId
    ensures Apart(rows + [row], others) && Apart(others, rows + [row])
  {
  }

  lemma CommitKeepsIds(w: World, tx: nat)
    requires UniqueIds(w) && tx in w.open
    ensures UniqueIds(Apply(w, Commit(tx)).value)
  {
    var after := Apply(w, Commit(tx)).value;
    DistinctConcat(w.committed, w.open[tx].rows, w.nextId);
    forall t | t in after.open
      ensures Apart(after.open[t].rows, after.committed)
    {
      assert Apart(w.open[t].rows, w.open[tx].rows);
      ApartConcat(w.open[t].rows, w.committed, w.open[tx].rows);
    }
    hide DistinctIds, Apart, Below;
  }

  lemma DistinctConcat(a: seq<LogRow>, b: seq<LogRow>, nextId: nat)
    requires DistinctIds(a) && DistinctIds(b) && Apart(b, a) && Below(a, nextId) && Below(b, nextId)
    ensures DistinctIds(a + b) && Below(a + b, nextId)
  {
    forall i, j | 0 <= i < j < |a + b|
      ensures (a + b)[i].changeId != (a + b)[j].changeId
    {
      if i < |a| <= j {
        assert a[i] in a && b[j - |a|] in b;
      }
    }
  }

  lemma ApartConcat(rows: seq<LogRow>, a: seq<LogRow>, b: seq<LogRow>)
    requires Apart(rows, a) && Apart(rows, b)
    ensures Apart(rows, a + b)
  {
  }

  lemma {:induction false} RunKeepsSound(w: World, events: seq<Event>)
    requires Sound(w) && Run(w, events).Some?
    ensures Sound(Run(w, events).value)
  {
    if events != [] {
      var n := |events| - 1;
      RunKeepsSound(w, events[..n]);
      StepKeepsSound(Run(w, events[..n]).value, events[n]);
    }
  }

  lemma StepKeepsSound(w: World, e: Event)
    requires Sound(w) && Apply(w, e).Some?
    ensures Sound(Apply(w, e).value)
  {
    StepKeepsIds(w, e);
    StepKeepsStamps(w, e);
    StepKeepsReader(w, e);
    hide Apply, UniqueIds, Stamped, ReaderSound;
  }

  lemma StepKeepsIds(w: World, e: Event)
    requires Sound(w) && Apply(w, e).Some?
    ensures UniqueIds(Apply(w, e).value)
  {
    match e
    case Append(tx, rec) => AppendKeepsIds(w, tx, rec);
    case Commit(tx) => CommitKeepsIds(w, tx);
    case PullPage(limit) => hide Page, Apart, Below, DistinctIds;
    case Begin(_, _) => hide DistinctIds;
    case Abort(_) => hide Apart, Below, DistinctIds;
  }

  lemma StepKeepsStamps(w: World, e: Event)
    requires Sound(w) && Apply(w, e).Some?
    ensures Stamped(Apply(w, e).value)
  {
    hide Page, UniqueIds, ReaderSound;
  }

  lemma StepKeepsReader(w: World, e: Event)
    requires Sound(w) && Apply(w, e).Some?
    ensures ReaderSound(Apply(w, e).value)
  {
    if e.PullPage? {
      PullKeepsReader(w, e.limit);
    } else {
      hide UniqueIds, Stamped, Sorted;
    }
  }

  /** A missed row is missed for good. */
  lemma {:induction false} MissedForever(w: World, events: seq<Event>, row: LogRow)
    requires Sound(w) && Missed(w, row) && Run(w, events).Some?
    ensures Missed(Run(w, events).value, row)
  {
    if events != [] {
      var n := |events| - 1;
      MissedForever(w, events[..n], row);
      RunKeepsSound(w, events[..n]);
      StepKeepsMissed(Run(w, events[..n]).value, events[n], row);
    }
  }

  lemma StepKeepsMissed(w: World, e: Event, row: LogRow)
    requires Sound(w) && Missed(w, row) && Apply(w, e).Some?
    ensures Missed(Apply(w, e).value, row)
  {
    if e.PullPage? {
      PageRows(w, e.limit);
      var page := Page(w, e.limit);
      hide Page;
      if page != [] {
        assert page[|page| - 1] in page;
        assert row !in page;
      }
    }
  }

  // ----- when nothing is missed ---------------------------------------------------

  /** A commit shows only rows that are ahead of the reader. */
  ghost predicate Ahead(w: World, e: Event) {
    e.Commit? && e.tx in w.open ==> forall row | row in w.open[e.tx].rows :: After(row, w.cursor)
  }

  /** Every commit of the run was ahead of the reader at that moment. */
  ghost predicate AllAhead(w: World, events: seq<Event>) {
    forall i | 0 <= i < |events| && Run(w, events[..i]).Some? :: Ahead(Run(w, events[..i]).value, events[i])
  }

  ghost predicate NothingMissed(w: World) {
    forall row | row in w.committed :: !Missed(w, row)
  }

  /** One step misses a row exactly if it is a commit behind the reader. */
  lemma StepMisses(w: World, e: Event)
    requires Sound(w) && NothingMissed(w) && Apply(w, e).Some?
    ensures NothingMissed(Apply(w, e).value) <==> Ahead(w, e)
  {
    var after := Apply(w, e).value;
    if e.Commit? {
      var rows := w.open[e.tx].rows;
      hide DistinctIds, Sorted;
      forall row | row in rows
        ensures row in after.committed && row !in w.delivered
      {
      }
      assert forall row | row in after.committed :: row in w.committed || row in rows;
      assert after.cursor == w.cursor && after.delivered == w.delivered;
      if !Ahead(w, e) {
        var row :| row in rows && !After(row, w.cursor);
        assert Missed(after, row);
      }
    } else if e.PullPage? {
      PullMissesNothing(w, e.limit);
    }
  }

  lemma PullMissesNothing(w: World, limit: nat)
    requires Sound(w) && NothingMissed(w)
    ensures NothingMissed(Apply(w, PullPage(limit)).value)
  {
    PageRows(w, limit);
    hide Page, Sound, Sorted, After;
    var after := Apply(w, PullPage(limit)).value;
    forall row | row in after.committed
      ensures !Missed(after, row)
    {
      assert !Missed(w, row);
    }
  }

  /** A run misses nothing if and only if every commit in it was ahead of the reader. */
  lemma {:induction false} MissesNothingIffAhead(events: seq<Event>)
    requires Run(START, events).Some?
    ensures NothingMissed(Run(START, events).value) <==> AllAhead(START, events)
  {
    hide Ahead, Sound, Missed, Apply;
    if events == [] {
      assert NothingMissed(START);
    } else {
      var n := |events| - 1;
      var front := events[..n];
      MissesNothingIffAhead(front);
      RunKeepsSound(START, front);
      var before := Run(START, front).value;
      AllAheadNext(events);
      LastEvent(START, events);
      hide Run, AllAhead, NothingMissed;
      NothingMissedNext(before, events[n]);
    }
  }

  lemma NothingMissedNext(w: World, e: Event)
    requires Sound(w) && Apply(w, e).Some?
    ensures NothingMissed(Apply(w, e).value) <==> NothingMissed(w) && Ahead(w, e)
  {
    hide Sound, Ahead;
    if NothingMissed(w) {
      StepMisses(w, e);
    } else {
      var row :| row in w.committed && Missed(w, row);
      StepKeepsMissed(w, e, row);
      assert row in Apply(w, e).value.committed;
    }
  }

  lemma AllAheadNext(events: seq<Event>)
    requires events != [] && Run(START, events[..|events| - 1]).Some?
    ensures AllAhead(START, events) <==>
      AllAhead(START, events[..|events| - 1]) && Ahead(Run(START, events[..|events| - 1]).value, events[|events| - 1])
  {
    hide Run, Ahead;
    var n := |events| - 1;
    var front := events[..n];
    assert forall i | 0 <= i < n :: front[..i] == events[..i] && front[i] == events[i];
  }

  // ----- commits in cursor order ----------------------------------------------------

  /** The rows of a commit come after everything already visible. */
  ghost predicate InOrder(w: World, e: Event) {
    e.Commit? && e.tx in w.open ==>
      forall row, r | row in w.open[e.tx].rows && r in w.committed :: Precedes(r, row)
  }

  ghost predicate AllInOrder(w: World, events: seq<Event>) {
    forall i | 0 <= i < |events| && Run(w, events[..i]).Some? :: InOrder(Run(w, events[..i]).value, events[i])
  }

  /** If commits become visible in cursor order, no reader ever misses a row, whenever it pulls. */
  lemma OrderedCommitsMissNothing(events: seq<Event>)
    requires Run(START, events).Some? && AllInOrder(START, events)
    ensures NothingMissed(Run(START, events).value)
  {
    MissesNothingIffAhead(events);
    forall i | 0 <= i < |events| && Run(START, events[..i]).Some?
      ensures Ahead(Run(START, events[..i]).value, events[i])
    {
      var w := Run(START, events[..i]).value;
      RunKeepsSound(START, events[..i]);
      assert InOrder(w, events[i]);
      InOrderIsAhead(w, events[i]);
    }
  }

  lemma InOrderIsAhead(w: World, e: Event)
    requires ReaderSound(w) && InOrder(w, e)
    ensures Ahead(w, e)
  {
    if w.delivered != [] {
      var last := w.delivered[|w.delivered| - 1];
      assert last in w.delivered && last in w.committed;
    }
    hide Sorted;
  }

  // ----- what the writers must do, whoever pulls ----------------------------------------

  ghost predicate PullFree(events: seq<Event>) {
    forall e | e in events :: !e.PullPage?
  }

  /** What the writers do in a run. */
  ghost function WithoutPulls(events: seq<Event>): seq<Event> {
    if events == [] then []
    else
      var last := events[|events| - 1];
      WithoutPulls(events[..|events| - 1]) + if last.PullPage? then [] else [last]
  }

  /** The same store, whatever the reader has. */
  ghost predicate SameStore(w: World, v: World) {
    w.open == v.open && w.committed == v.committed && w.nextId == v.nextId
  }

  lemma StepIgnoresReader(w: World, v: World, e: Event)
    requires SameStore(w, v)
    ensures Apply(w, e).Some? <==> Apply(v, e).Some?
    ensures Apply(w, e).Some? ==> SameStore(Apply(w, e).value, Apply(v, e).value)
    ensures e.PullPage? ==> Apply(w, e).Some? && SameStore(Apply(w, e).value, v)
  {
    hide Page;
  }

  /** Pulls leave no trace in the store. */
  lemma {:induction false} WritersAlone(events: seq<Event>)
    requires Run(START, events).Some?
    ensures Run(START, WithoutPulls(events)).Some?
    ensures SameStore(Run(START, events).value, Run(START, WithoutPulls(events)).value)
  {
    hide Apply;
    if events != [] {
      var n := |events| - 1;
      WritersAlone(events[..n]);
      var v := Run(START, WithoutPulls(events[..n])).value;
      StepIgnoresReader(Run(START, events[..n]).value, v, events[n]);
      var writers := WithoutPulls(events);
      if events[n].PullPage? {
        assert writers == WithoutPulls(events[..n]);
      } else {
        assert writers[..|writers| - 1] == WithoutPulls(events[..n]);
      }
    }
  }

  lemma {:induction false} WritersOfPrefix(events: seq<Event>, i: nat)
    requires i <= |events|
    ensures WithoutPulls(events[..i]) <= WithoutPulls(events)
    ensures i < |events| && !events[i].PullPage? ==>
      var p := |WithoutPulls(events[..i])|;
      p < |WithoutPulls(events)| && WithoutPulls(events)[p] == events[i]
  {
    if i == |events| {
      assert events[..i] == events;
    } else {
      var n := |events| - 1;
      WritersOfPrefix(events[..n], i);
      assert events[..n][..i] == events[..i];
      if i < n {
        assert events[..n][i] == events[i];
      }
    }
  }

  /** Writers in order stay in order under any insertion of pulls. */
  lemma InsertedPullsKeepOrder(events: seq<Event>)
    requires Run(START, events).Some? && AllInOrder(START, WithoutPulls(events))
    ensures AllInOrder(START, events)
  {
    var writers := WithoutPulls(events);
    forall i | 0 <= i < |events| && Run(START, events[..i]).Some?
      ensures InOrder(Run(START, events[..i]).value, events[i])
    {
      if events[i].Commit? {
        WritersAlone(events[..i]);
        WritersOfPrefix(events, i);
        var p := |WithoutPulls(events[..i])|;
        assert writers[..p] == WithoutPulls(events[..i]);
        assert InOrder(Run(START, writers[..p]).value, writers[p]);
      }
    }
    hide Run;
  }

  lemma {:induction false} RunAppends(w: World, a: seq<Event>, b: seq<Event>)
    requires Run(w, a).Some?
    ensures Run(w, a + b) == Run(Run(w, a).value, b)
  {
    hide Apply;
    if b == [] {
      assert a + b == a;
    } else {
      RunAppends(w, a, b[..|b| - 1]);
      assert (a + b)[..|a + b| - 1] == a + b[..|b| - 1];
    }
  }

  lemma {:induction false} RunIgnoresReader(w: World, v: World, events: seq<Event>)
    requires SameStore(w, v) && Run(w, events).Some?
    ensures Run(v, events).Some? && SameStore(Run(w, events).value, Run(v, events).value)
  {
    hide Apply, SameStore;
    if events != [] {
      var n := |events| - 1;
      RunIgnoresReader(w, v, events[..n]);
      StepIgnoresReader(Run(w, events[..n]).value, Run(v, events[..n]).value, events[n]);
    }
  }

  lemma {:induction false} PullFreeReader(events: seq<Event>)
    requires PullFree(events) && Run(START, events).Some?
    ensures Run(START, events).value.cursor == FromStart && Run(START, events).value.delivered == []
    ensures WithoutPulls(events) == events
  {
    hide Apply;
    if events != [] {
      var n := |events| - 1;
      assert events[n] in events;
      PullFreeReader(events[..n]);
      WritingKeepsReader(Run(START, events[..n]).value, events[n]);
      assert events == events[..n] + [events[n]];
    }
  }

  lemma WritingKeepsReader(w: World, e: Event)
    requires !e.PullPage? && Apply(w, e).Some?
    ensures Apply(w, e).value.cursor == w.cursor && Apply(w, e).value.delivered == w.delivered
  {
  }

  /** A reader that pulls everything just before a commit out of order misses a row of it. */
  lemma PullBeforeMisses(w: World, e: Event)
    requires Sound(w) && w.cursor == FromStart && w.delivered == [] && Apply(w, e).Some? && !InOrder(w, e)
    ensures Apply(w, PullPage(|w.committed|)).Some?
    ensures var pulled := Apply(w, PullPage(|w.committed|)).value;
      && Sound(pulled) && SameStore(w, pulled) && Apply(pulled, e).Some? && !NothingMissed(Apply(pulled, e).value)
  {
    var pulled := Apply(w, PullPage(|w.committed|)).value;
    PullKeepsReader(w, |w.committed|);
    StepKeepsSound(w, PullPage(|w.committed|));
    StepIgnoresReader(w, pulled, e);
    var row, r :| row in w.open[e.tx].rows && r in w.committed && !Precedes(r, row);
    PullsAll(w, r);
    assert row.changeId != r.changeId by {
      assert Apart(w.open[e.tx].rows, w.committed);
    }
    assert !After(row, pulled.cursor);
    assert !Ahead(pulled, e);
    hide Page, Sound, Apply, Missed;
    NothingMissedNext(pulled, e);
  }

  /** After pulling the whole log from the start no visible row is ahead of the cursor. */
  lemma PullsAll(w: World, r: LogRow)
    requires Sound(w) && w.cursor == FromStart && r in w.committed
    ensures var pulled := Apply(w, PullPage(|w.committed|)).value;
      pulled.cursor.FromCursor? && !After(r, pulled.cursor)
  {
    SortedLog(w);
    CursorOrderSorts(w.committed);
    var sorted := InCursorOrder(w.committed);
    SameLength(w.committed, sorted);
    hide InCursorOrder, UniqueIds, Stamped, ReaderSound;
    assert Position(sorted, FromStart) == 0;
    var page := Page(w, |w.committed|);
    assert page == sorted;
    NotAfterLast(sorted, r);
  }

  lemma SameLength(a: seq<LogRow>, b: seq<LogRow>)
    requires multiset(a) == multiset(b)
    ensures |a| == |b|
  {
    assert |multiset(a)| == |a| && |multiset(b)| == |b|;
  }

  /** Exactly what the writers must do: a run of writers loses nothing, however a reader's pulls are woven into it, if
      and only if it commits in cursor order. */
  lemma OrderedCommitsExactly(events: seq<Event>)
    requires PullFree(events) && Run(START, events).Some?
    ensures AllInOrder(START, events) <==>
      forall es: seq<Event> | WithoutPulls(es) == events && Run(START, es).Some? :: NothingMissed(Run(START, es).value)
  {
    hide Run, Apply, NothingMissed, AllInOrder;
    if AllInOrder(START, events) {
      forall es: seq<Event> | WithoutPulls(es) == events && Run(START, es).Some?
        ensures NothingMissed(Run(START, es).value)
      {
        InsertedPullsKeepOrder(es);
        OrderedCommitsMissNothing(es);
      }
    } else {
      var es := LosingPulls(events);
    }
  }

  lemma LosingPulls(events: seq<Event>) returns (es: seq<Event>)
    requires PullFree(events) && Run(START, events).Some? && !AllInOrder(START, events)
    ensures WithoutPulls(es) == events && Run(START, es).Some? && !NothingMissed(Run(START, es).value)
  {
    hide Run, Apply, NothingMissed, InOrder, Sound;
    var i: nat :| i < |events| && Run(START, events[..i]).Some? && !InOrder(Run(START, events[..i]).value, events[i]);
    var front, rest := events[..i], events[i + 1..];
    assert events == front + ([events[i]] + rest);
    PullFreeReader(front);
    PullFreeReader(events);
    es := WovenPull(front, events[i], rest);
  }

  /** Pulling everything just before a commit out of order. */
  lemma WovenPull(front: seq<Event>, e: Event, rest: seq<Event>) returns (es: seq<Event>)
    requires Run(START, front).Some? && Run(START, front + ([e] + rest)).Some? && !InOrder(Run(START, front).value, e)
    requires Run(START, front).value.cursor == FromStart && Run(START, front).value.delivered == []
    ensures WithoutPulls(es) == WithoutPulls(front + ([e] + rest))
    ensures Run(START, es).Some? && !NothingMissed(Run(START, es).value)
  {
    hide Run, Apply, NothingMissed, InOrder, Sound, SameStore, WithoutPulls;
    var w := Run(START, front).value;
    RunKeepsSound(START, front);
    RunAppends(START, front, [e] + rest);
    RunSplits(w, e, rest);
    PullBeforeMisses(w, e);
    var pull := PullPage(|w.committed|);
    var pulled := Apply(w, pull).value;
    es := front + [pull] + ([e] + rest);
    OneStep(w, pull);
    RunAppends(START, front, [pull]);
    RunAppends(START, front + [pull], [e] + rest);
    RunIgnoresReader(w, pulled, [e] + rest);
    RunSplits(pulled, e, rest);
    StepKeepsSound(pulled, e);
    StaysMissed(Apply(pulled, e).value, rest);
    WrittenAlike(front, pull, [e] + rest);
  }

  lemma OneStep(w: World, e: Event)
    ensures Run(w, [e]) == Apply(w, e)
  {
    assert [e][..0] == [];
    hide Apply;
  }

  lemma RunSplits(w: World, e: Event, rest: seq<Event>)
    requires Run(w, [e] + rest).Some?
    ensures Apply(w, e).Some? && Run(w, [e] + rest) == Run(Apply(w, e).value, rest)
  {
    hide Apply;
    OneStep(w, e);
    RunPrefix(w, [e] + rest, 1);
    assert ([e] + rest)[..1] == [e];
    RunAppends(w, [e], rest);
  }

  lemma {:induction false} RunPrefix(w: World, events: seq<Event>, n: nat)
    requires n <= |events| && Run(w, events).Some?
    ensures Run(w, events[..n]).Some?
  {
    hide Apply;
    if n < |events| {
      RunPrefix(w, events[..|events| - 1], n);
      assert events[..|events| - 1][..n] == events[..n];
    } else {
      assert events[..n] == events;
    }
  }

  lemma StaysMissed(w: World, events: seq<Event>)
    requires Sound(w) && !NothingMissed(w) && Run(w, events).Some?
    ensures !NothingMissed(Run(w, events).value)
  {
    hide Run, Sound;
    var row :| row in w.committed && Missed(w, row);
    MissedForever(w, events, row);
  }

  /** Weaving in a pull does not change what the writers do. */
  lemma {:induction false} WrittenAlike(front: seq<Event>, pull: Event, rest: seq<Event>)
    requires pull.PullPage?
    ensures WithoutPulls(front + [pull] + rest) == WithoutPulls(front + rest)
  {
    var woven := front + [pull] + rest;
    if rest == [] {
      assert woven[..|woven| - 1] == front && front + rest == front;
    } else {
      var n := |rest| - 1;
      WrittenAlike(front, pull, rest[..n]);
      assert woven[..|woven| - 1] == front + [pull] + rest[..n];
      assert (front + rest)[..|front + rest| - 1] == front + rest[..n];
    }
  }

  // ----- serial transactions ----------------------------------------------------------

  /** A transaction begins only while no other is open, and not before what is already visible. */
  ghost predicate Serial(w: World, e: Event) {
    e.Begin? ==> w.open == map[] && forall row | row in w.committed :: row.at <= e.now
  }

  ghost predicate AllSerial(w: World, events: seq<Event>) {
    forall i | 0 <= i < |events| && Run(w, events[..i]).Some? :: Serial(Run(w, events[..i]).value, events[i])
  }

  /** At most one transaction is open; its rows come after all visible ones. */
  ghost predicate OneAtATime(w: World) {
    && (forall t, u | t in w.open && u in w.open :: t == u)
    && (forall t, row | t in w.open && row in w.committed :: row.at <= w.open[t].now)
    && (forall t, row, r | t in w.open && row in w.open[t].rows && r in w.committed :: r.changeId < row.changeId)
  }

  lemma {:induction false} SerialRunsKeepOne(events: seq<Event>)
    requires Run(START, events).Some? && AllSerial(START, events)
    ensures OneAtATime(Run(START, events).value)
  {
    if events != [] {
      var n := |events| - 1;
      var front := events[..n];
      assert forall i | 0 <= i < n :: front[..i] == events[..i] && front[i] == events[i];
      SerialRunsKeepOne(front);
      RunKeepsSound(START, front);
      var before := Run(START, front).value;
      assert Serial(before, events[n]);
      hide Run, DistinctIds, Sorted;
      SerialStepKeepsOne(before, events[n]);
    }
  }

  lemma SerialStepKeepsOne(w: World, e: Event)
    requires Sound(w) && OneAtATime(w) && Serial(w, e) && Apply(w, e).Some?
    ensures OneAtATime(Apply(w, e).value)
  {
    hide DistinctIds, Sorted, Page;
    var after := Apply(w, e).value;
    match e
    case Append(tx, rec) =>
      assert forall r | r in after.open[tx].rows :: r in w.open[tx].rows || r.changeId == w.nextId;
    case Commit(tx) =>
      assert after.open == map[];
    case _ =>
  }

  /** Serial transactions on a clock that does not go back commit in cursor order, so nothing is ever missed. */
  lemma SerialRunsMissNothing(events: seq<Event>)
    requires Run(START, events).Some? && AllSerial(START, events)
    ensures AllInOrder(START, events) && NothingMissed(Run(START, events).value)
  {
    forall i | 0 <= i < |events| && Run(START, events[..i]).Some?
      ensures InOrder(Run(START, events[..i]).value, events[i])
    {
      var front := events[..i];
      assert forall j | 0 <= j < i :: front[..j] == events[..j] && front[j] == events[j];
      SerialRunsKeepOne(front);
      RunKeepsSound(START, front);
      hide Run, DistinctIds, Sorted;
    }
    OrderedCommitsMissNothing(events);
  }

  // ----- completeness -------------------------------------------------------------------

  /** A reader that misses nothing and has nothing ahead holds the whole visible log, each row once, in cursor order. */
  lemma DrainedReaderIsComplete(w: World)
    requires Sound(w) && NothingMissed(w) && forall row | row in w.committed :: !After(row, w.cursor)
    ensures w.delivered == InCursorOrder(w.committed) && multiset(w.delivered) == multiset(w.committed)
  {
    CursorOrderSorts(w.committed);
    var sorted := InCursorOrder(w.committed);
    hide InCursorOrder;
    forall row
      ensures row in w.delivered <==> row in sorted
    {
      assert row in sorted <==> row in multiset(sorted);
      if row in w.committed {
        assert !Missed(w, row);
      }
    }
    SameSorted(w.delivered, sorted);
  }

  lemma HeadFirst(rows: seq<LogRow>, row: LogRow)
    requires Sorted(rows) && row in rows
    ensures row == rows[0] || Precedes(rows[0], row)
  {
    var i :| 0 <= i < |rows| && rows[i] == row;
  }

  /** A sorted list is determined by its members. */
  lemma {:induction false} SameSorted(a: seq<LogRow>, b: seq<LogRow>)
    requires Sorted(a) && Sorted(b) && forall row :: row in a <==> row in b
    ensures a == b
  {
    assert b != [] ==> b[0] in a;
    if a != [] {
      assert a[0] in a && b[0] in b;
      HeadFirst(a, b[0]);
      HeadFirst(b, a[0]);
      forall row
        ensures row in a[1..] <==> row in b[1..]
      {
        assert row in a <==> row == a[0] || row in a[1..];
        assert row in b <==> row == b[0] || row in b[1..];
        assert row in a[1..] ==> Precedes(a[0], row);
        assert row in b[1..] ==> Precedes(b[0], row);
      }
      SameSorted(a[1..], b[1..]);
      assert a == [a[0]] + a[1..] && b == [b[0]] + b[1..];
    }
  }

  /** Pulling a page moves the reader on by one row or more, as long as there is one ahead. */
  lemma PullAdvances(w: World, limit: nat)
    requires Sound(w) && limit > 0
    ensures var sorted := InCursorOrder(w.committed);
      var p := Position(sorted, w.cursor);
      && Position(sorted, Apply(w, PullPage(limit)).value.cursor) == Min(p + limit, |sorted|)
      && (p == |sorted| <==> forall row | row in w.committed :: !After(row, w.cursor))
  {
    SortedLog(w);
    var sorted := InCursorOrder(w.committed);
    AheadOfPosition(sorted, w.cursor);
    hide InCursorOrder, Position, UniqueIds, Stamped, ReaderSound, Sorted, After;
    PageEnd(w, limit);
  }

  lemma PageEnd(w: World, limit: nat)
    requires Sorted(InCursorOrder(w.committed)) && limit > 0
    ensures var sorted := InCursorOrder(w.committed);
      Position(sorted, Apply(w, PullPage(limit)).value.cursor) == Min(Position(sorted, w.cursor) + limit, |sorted|)
  {
    hide InCursorOrder, Position, Sorted;
    var sorted := InCursorOrder(w.committed);
    var p := Position(sorted, w.cursor);
    if p < |sorted| {
      var page := Page(w, limit);
      assert page[|page| - 1] == sorted[Min(p + limit, |sorted|) - 1];
      PositionOfRow(sorted, Min(p + limit, |sorted|) - 1);
    }
  }

  lemma AheadOfPosition(sorted: seq<LogRow>, cursor: ParsedCursor)
    requires Sorted(sorted)
    ensures Position(sorted, cursor) == |sorted| <==> forall row | row in sorted :: !After(row, cursor)
  {
    var p := Position(sorted, cursor);
    if p < |sorted| {
      PositionSplits(sorted, cursor, p);
      assert sorted[p] in sorted;
    } else {
      forall row | row in sorted
        ensures !After(row, cursor)
      {
        var i :| 0 <= i < |sorted| && sorted[i] == row;
        PositionSplits(sorted, cursor, i);
      }
    }
  }

  // ----- a trace that loses a row ---------------------------------------------------------

  /** Two overlapping pushes: the earlier one commits last, after a pull has gone past its time. */
  function LosingTrace(slow: Time, quick: Time, a: Record, b: Record): seq<Event> {
    [Begin(1, slow), Begin(2, quick), Append(2, a), Commit(2), PullPage(100), Append(1, b), Commit(1), PullPage(100)]
  }

  /** The change of the slow push is visible, and no later pull of this reader will ever bring it. */
  lemma OverlapLosesRow(slow: Time, quick: Time, a: Record, b: Record, later: seq<Event>)
    requires slow < quick
    ensures var lost := LogRow(2, b, slow);
      var w := Run(START, LosingTrace(slow, quick, a, b));
      && w.Some? && Missed(w.value, lost)
      && (Run(w.value, later).Some? ==> Missed(Run(w.value, later).value, lost))
  {
    var events := LosingTrace(slow, quick, a, b);
    var seen, lost := LogRow(1, a, quick), LogRow(2, b, slow);
    var w1 := World(map[1 := Tx(slow, [])], [], 1, FromStart, []);
    var w2 := w1.(open := map[1 := Tx(slow, []), 2 := Tx(quick, [])]);
    var w3 := w2.(open := map[1 := Tx(slow, []), 2 := Tx(quick, [seen])], nextId := 2);
    var w4 := w3.(open := map[1 := Tx(slow, [])], committed := [seen]);
    var w5 := w4.(cursor := CursorOf(seen), delivered := [seen]);
    var w6 := w5.(open := map[1 := Tx(slow, [lost])], nextId := 3);
    var w7 := w6.(open := map[], committed := [seen, lost]);
    assert Apply(START, Begin(1, slow)) == Some(w1);
    assert Apply(w1, Begin(2, quick)) == Some(w2);
    assert Apply(w2, Append(2, a)) == Some(w3) by {
      assert w2.open[2].rows + [seen] == [seen];
      assert w2.open[2 := Tx(quick, [seen])] == w3.open;
    }
    assert Apply(w3, Commit(2)) == Some(w4) by {
      assert w3.open - {2} == w4.open;
      assert w3.committed + [seen] == [seen];
    }
    assert Apply(w4, PullPage(100)) == Some(w5) by {
      assert [seen][..0] == [] && InCursorOrder([seen]) == [seen];
      assert Page(w4, 100) == [seen];
    }
    assert Apply(w5, Append(1, b)) == Some(w6) by {
      assert w5.open[1].rows + [lost] == [lost];
      assert w5.open[1 := Tx(slow, [lost])] == w6.open;
    }
    assert Apply(w6, Commit(1)) == Some(w7) by {
      assert w6.open - {1} == map[];
      assert w6.committed + [lost] == [seen, lost];
    }
    assert Missed(w7, lost);
    hide Apply;
    ShortRun(events, [START, w1, w2, w3, w4, w5, w6, w7], 7);
    hide Sound, Missed;
    assert events[..8] == events && events[..8][..7] == events[..7];
    RunKeepsSound(START, events[..7]);
    AfterTrace(events, w7, lost, later);
  }

  /** Once the row is missed, one more pull and anything later leave it missed. */
  lemma AfterTrace(events: seq<Event>, w: World, lost: LogRow, later: seq<Event>)
    requires |events| == 8 && events[7] == PullPage(100) && Run(START, events[..7]) == Some(w)
    requires Sound(w) && Missed(w, lost)
    ensures Run(START, events).Some? && Missed(Run(START, events).value, lost)
    ensures Run(Run(START, events).value, later).Some? ==> Missed(Run(Run(START, events).value, later).value, lost)
  {
    LastEvent(START, events);
    StepKeepsMissed(w, PullPage(100), lost);
    StepKeepsSound(w, PullPage(100));
    var next := Run(START, events).value;
    hide Run, Sound, Missed;
    if Run(next, later).Some? {
      MissedForever(next, later, lost);
    }
  }

  lemma {:induction false} ShortRun(events: seq<Event>, worlds: seq<World>, n: nat)
    requires n < |worlds| && n <= |events| && worlds[0] == START
    requires forall i | 0 <= i < n :: Apply(worlds[i], events[i]) == Some(worlds[i + 1])
    ensures Run(START, events[..n]) == Some(worlds[n])
  {
    hide Apply;
    if n > 0 {
      ShortRun(events, worlds, n - 1);
      assert events[..n][..n - 1] == events[..n - 1];
    }
  }

  lemma LastEvent(w: World, events: seq<Event>)
    requires events != [] && Run(w, events[..|events| - 1]).Some?
    ensures Run(w, events) == Apply(Run(w, events[..|events| - 1]).value, events[|events| - 1])
  {
  }
}
