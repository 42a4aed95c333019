/** What Pull computes, and what a client that keeps pulling receives. */
module PullSpec {
  import opened Text
  import opened Records
  import opened Tables
  import opened Authorization

  /** A decoded `since`: the position of a log row. */
  datatype Cursor = Cursor(at: Time, changeId: int)

  datatype ParsedCursor = BadCursor | FromStart | FromCursor(cursor: Cursor)

  /** ORDER BY server_modified_at, change_id */
  predicate Precedes(a: LogRow, b: LogRow) {
    a.at < b.at || (a.at == b.at && a.changeId < b.changeId)
  }

  predicate After(row: LogRow, since: ParsedCursor) {
    since.FromCursor? ==>
      since.cursor.at < row.at || (since.cursor.at == row.at && since.cursor.changeId < row.changeId)
  }

  function CursorOf(row: LogRow): ParsedCursor {
    FromCursor(Cursor(row.at, row.changeId))
  }

  function Insert(row: LogRow, rows: seq<LogRow>): seq<LogRow> {
    if rows == [] then [row]
    else
      var last := rows[|rows| - 1];
      if Precedes(row, last) then Insert(row, rows[..|rows| - 1]) + [last] else rows + [row]
  }

  /** The log sorted by cursor. */
  function InCursorOrder(log: seq<LogRow>): seq<LogRow> {
    if log == [] then [] else Insert(log[|log| - 1], InCursorOrder(log[..|log| - 1]))
  }

  /** How many rows of a sorted log a cursor has passed. */
  function Position(rows: seq<LogRow>, since: ParsedCursor): (p: nat)
    ensures p <= |rows|
  {
    if rows == [] || After(rows[0], since) then 0 else 1 + Position(rows[1..], since)
  }

  function Min(a: nat, b: nat): nat {
    if a < b then a else b
  }

  /** strconv.ParseInt(s, 10, 64) */
  function ParseInt64(s: string): Option<int> {
    if s == "" then None
    else
      var signed := s[0] == '-' || s[0] == '+';
      var digits := if signed then s[1..] else s;
      if digits == "" || !AllDigits(digits) then None
      else
        var magnitude: int := Value(digits);
        var v := if s[0] == '-' then -magnitude else magnitude;
        if -0x8000_0000_0000_0000 <= v < 0x8000_0000_0000_0000 then Some(v) else None
  }

  /** The text before and after the first '#'. */
  function CutHash(s: string): Option<(string, string)> {
    if s == "" then None
    else if s[0] == '#' then Some(("", s[1..]))
    else
      var rest :- CutHash(s[1..]);
      Some(([s[0]] + rest.0, rest.1))
  }

  /** encodeSyncCursor */
  function EncodeCursor(env: Env, row: LogRow): string {
    env.formatTime(row.at) + "#" + Decimal(row.changeId)
  }

  /** parseSyncCursor: a time alone is the position before every row of that time. */
  function ParseCursor(env: Env, text: string): ParsedCursor {
    var s := TrimSpace(text);
    if s == "" then FromStart
    else
      match CutHash(s)
      case None =>
        (match env.parseTime(s)
         case None => BadCursor
         case Some(t) => FromCursor(Cursor(t, 0)))
      case Some((timePart, idPart)) =>
        match (env.parseTime(timePart), ParseInt64(idPart))
        case (Some(t), Some(id)) => FromCursor(Cursor(t, id))
        case _ => BadCursor
  }

  /** The rows among rows[from..to] a reader may see, in order; None if one of them cannot be decided. */
  function Readables(read: LogRow -> Readable, rows: seq<LogRow>, from: nat, to: nat): Option<seq<LogRow>>
    requires from <= to <= |rows|
  {
    if from == to then Some([])
    else
      var front :- Readables(read, rows, from, to - 1);
      match read(rows[to - 1])
      case CanRead => Some(front + [rows[to - 1]])
      case Hidden => Some(front)
      case ReadError => None
  }

  /** The rows delivered, how many rows of the log are passed afterwards, and has_more. */
  datatype PullResult = PullFailed | Pulled(changes: seq<LogRow>, next: nat, hasMore: bool)

  /** The Pull loop over a sorted log, `next` rows into it. Each page moves the cursor to its end, but
      appends only while the answer is not full. */
  function PullPages(read: LogRow -> Readable, rows: seq<LogRow>, limit: nat, next: nat,
                     changes: seq<LogRow>): PullResult
    requires next <= |rows| && |changes| < limit
    decreases |rows| - next
  {
    var end := Min(next + limit, |rows|);
    if next == end then Pulled(changes, next, false)
    else
      match Readables(read, rows, next, end)
      case None => PullFailed
      case Some(readable) =>
        var changes' := changes + readable[..Min(|readable|, limit - |changes|)];
        if end - next < limit then Pulled(changes', end, false)
        else if |changes'| >= limit then Pulled(changes', end, true)
        else PullPages(read, rows, limit, end, changes')
  }

  /** A caller's view of the log. */
  function Reader(caller: Caller, rows: Rows): LogRow -> Readable {
    (row: LogRow) => ReadDecision(caller, rows, row.record)
  }

  /** A limit below one means two hundred. */
  function EffectiveLimit(limit: int): (n: nat)
    ensures n >= 1
  {
    if limit < 1 then 200 else limit
  }
}

module PullProofs {
  import opened Text
  import opened Records
  import opened Tables
  import opened History
  import opened Authorization
  import opened AccessRules
  import opened ScopeTotality
  import opened PullSpec

  // ----- cursors ------------------------------------------------------------

  lemma {:induction false} CutHashFinds(a: string, b: string)
    requires '#' !in a
    ensures CutHash(a + "#" + b) == Some((a, b))
  {
    var s := a + "#" + b;
    if a == "" {
      assert s[1..] == b;
    } else {
      assert s[1..] == a[1..] + "#" + b;
      CutHashFinds(a[1..], b);
      assert [a[0]] + a[1..] == a;
    }
  }

  lemma {:induction false} CutHashNone(s: string)
    requires '#' !in s
    ensures CutHash(s) == None
  {
    if s != "" {
      CutHashNone(s[1..]);
    }
  }

  lemma {:induction false} TrimmedStays(s: string)
    requires IsTrimmed(s)
    ensures TrimSpace(s) == s
  {
  }

  /** Parsing inverts encoding, for every time and every positive 64-bit id. */
  lemma CursorRoundTrip(env: Env, row: LogRow)
    requires ValidEnv(env) && 0 < row.changeId < 0x8000_0000_0000_0000
    ensures ParseCursor(env, EncodeCursor(env, row)) == CursorOf(row)
  {
    var t, d := env.formatTime(row.at), Decimal(row.changeId);
    DecimalRoundTrip(row.changeId);
    var s := t + "#" + d;
    assert s[0] == t[0] && s[|s| - 1] == d[|d| - 1];
    assert IsDigit(d[|d| - 1]) && IsDigit(d[0]);
    TrimmedStays(s);
    CutHashFinds(t, d);
    assert env.parseTime(t) == Some(row.at);
  }

  /** A cursor without an id stands before all rows of its time: it may repeat rows but skips none. */
  lemma BareTimeSkipsNothing(env: Env, row: LogRow, other: LogRow)
    requires ValidEnv(env) && 0 < row.changeId && 0 < other.changeId
    ensures ParseCursor(env, env.formatTime(row.at)) == FromCursor(Cursor(row.at, 0))
    ensures After(other, CursorOf(row)) ==> After(other, ParseCursor(env, env.formatTime(row.at)))
    ensures After(row, ParseCursor(env, env.formatTime(row.at)))
  {
    var t := env.formatTime(row.at);
    TrimmedStays(t);
    CutHashNone(t);
    assert env.parseTime(t) == Some(row.at);
  }

  // ----- order --------------------------------------------------------------

  ghost predicate Sorted(rows: seq<LogRow>) {
    forall i, j | 0 <= i < j < |rows| :: Precedes(rows[i], rows[j])
  }

  ghost predicate DistinctIds(rows: seq<LogRow>) {
    forall i, j | 0 <= i < j < |rows| :: rows[i].changeId != rows[j].changeId
  }

  lemma {:induction false} InsertAdds(row: LogRow, rows: seq<LogRow>)
    ensures multiset(Insert(row, rows)) == multiset(rows) + multiset{row}
  {
    if rows != [] {
      var n := |rows| - 1;
      assert rows == rows[..n] + [rows[n]];
      InsertAdds(row, rows[..n]);
    }
  }

  lemma {:induction false} InsertSorts(row: LogRow, rows: seq<LogRow>)
    requires Sorted(rows)
    requires forall r | r in rows :: r.changeId != row.changeId
    ensures Sorted(Insert(row, rows))
    ensures multiset(Insert(row, rows)) == multiset(rows) + multiset{row}
  {
    InsertAdds(row, rows);
    if rows != [] {
      var n := |rows| - 1;
      if Precedes(row, rows[n]) {
        InsertSorts(row, rows[..n]);
        InsertAdds(row, rows[..n]);
        var front := Insert(row, rows[..n]);
        forall r | r in front
          ensures Precedes(r, rows[n])
        {
          assert r in multiset(front);
        }
      }
    }
  }

  /** Sorting by cursor keeps exactly the rows of the log. */
  lemma {:induction false} CursorOrderSorts(log: seq<LogRow>)
    requires DistinctIds(log)
    ensures Sorted(InCursorOrder(log)) && multiset(InCursorOrder(log)) == multiset(log)
  {
    if log != [] {
      var n := |log| - 1;
      CursorOrderSorts(log[..n]);
      var front := InCursorOrder(log[..n]);
      forall r | r in front
        ensures r.changeId != log[n].changeId
      {
        assert r in multiset(front);
        assert r in log[..n];
      }
      InsertSorts(log[n], front);
      assert log == log[..n] + [log[n]];
    }
  }

  /** A log written in cursor order is its own sorted form. */
  lemma {:induction false} SortedStays(log: seq<LogRow>)
    requires Sorted(log)
    ensures InCursorOrder(log) == log
  {
    if log != [] {
      var n := |log| - 1;
      SortedStays(log[..n]);
      assert log == log[..n] + [log[n]];
      if n > 0 {
        assert Precedes(log[n - 1], log[n]);
      }
    }
  }

  /** In a reachable state the order of the log is the order in which Pull delivers it. */
  lemma ReachableLogSorted(env: Env, core: Core)
    requires Reachable(env, core)
    ensures Sorted(core.log) && InCursorOrder(core.log) == core.log
  {
    ReachableInvariant(env, core);
    SortedStays(core.log);
  }

  /** In a sorted log the rows after a cursor are exactly those from its position on. */
  lemma {:induction false} PositionSplits(rows: seq<LogRow>, since: ParsedCursor, i: nat)
    requires Sorted(rows) && i < |rows|
    ensures After(rows[i], since) <==> Position(rows, since) <= i
  {
    if !After(rows[0], since) && i > 0 {
      PositionSplits(rows[1..], since, i - 1);
    } else if i > 0 {
      assert Precedes(rows[0], rows[i]);
    }
  }

  /** The cursor of a row stands just behind it. */
  lemma PositionOfRow(rows: seq<LogRow>, i: nat)
    requires Sorted(rows) && i < |rows|
    ensures Position(rows, CursorOf(rows[i])) == i + 1
  {
    PositionSplits(rows, CursorOf(rows[i]), i);
    if i + 1 < |rows| {
      assert Precedes(rows[i], rows[i + 1]);
      PositionSplits(rows, CursorOf(rows[i]), i + 1);
    }
  }

  // ----- one pull -----------------------------------------------------------

  /** No row makes the reader's permission check fail. */
  ghost predicate Decidable(read: LogRow -> Readable, rows: seq<LogRow>) {
    forall i | 0 <= i < |rows| :: read(rows[i]) != ReadError
  }

  ghost predicate ReadsAll(read: LogRow -> Readable, rows: seq<LogRow>) {
    forall i | 0 <= i < |rows| :: read(rows[i]) == CanRead
  }

  /** The readable rows among rows[from..to], for a reader who can be decided. */
  ghost function Visible(read: LogRow -> Readable, rows: seq<LogRow>, from: nat, to: nat): seq<LogRow>
    requires from <= to <= |rows|
  {
    if from == to then []
    else
      var front := Visible(read, rows, from, to - 1);
      if read(rows[to - 1]) == CanRead then front + [rows[to - 1]] else front
  }

  lemma {:induction false} ReadablesVisible(read: LogRow -> Readable, rows: seq<LogRow>, from: nat, to: nat)
    requires from <= to <= |rows| && Decidable(read, rows)
    ensures Readables(read, rows, from, to) == Some(Visible(read, rows, from, to))
    ensures |Visible(read, rows, from, to)| <= to - from
    ensures ReadsAll(read, rows) ==> Visible(read, rows, from, to) == rows[from..to]
  {
    if from < to {
      ReadablesVisible(read, rows, from, to - 1);
      assert read(rows[to - 1]) != ReadError;
    }
  }

  lemma {:induction false} ReadablesFailEarly(read: LogRow -> Readable, rows: seq<LogRow>, from: nat, middle: nat,
                                              to: nat)
    requires from <= middle <= to <= |rows| && Readables(read, rows, from, middle).None?
    ensures Readables(read, rows, from, to).None?
  {
    if middle < to {
      ReadablesFailEarly(read, rows, from, middle, to - 1);
    }
  }

  lemma {:induction false} VisibleSplits(read: LogRow -> Readable, rows: seq<LogRow>, from: nat, middle: nat, to: nat)
    requires from <= middle <= to <= |rows|
    ensures Visible(read, rows, from, to) == Visible(read, rows, from, middle) + Visible(read, rows, middle, to)
  {
    if middle < to {
      VisibleSplits(read, rows, from, middle, to - 1);
    }
  }

  /** The part of the answer that fits. */
  function UpTo(rows: seq<LogRow>, limit: nat): seq<LogRow> {
    rows[..Min(|rows|, limit)]
  }

  /** One round of the loop, when nothing readable has been dropped so far. */
  lemma PullPagesStep(read: LogRow -> Readable, rows: seq<LogRow>, limit: nat, start: nat, next: nat)
    requires Decidable(read, rows) && start <= next <= |rows|
    requires |Visible(read, rows, start, next)| < limit
    ensures var end := Min(next + limit, |rows|);
      var all := Visible(read, rows, start, end);
      PullPages(read, rows, limit, next, Visible(read, rows, start, next)) ==
        if next + limit > |rows| || |all| >= limit then Pulled(UpTo(all, limit), end, next + limit <= |rows|)
        else PullPages(read, rows, limit, end, all)
  {
    var end := Min(next + limit, |rows|);
    var changes := Visible(read, rows, start, next);
    VisibleSplits(read, rows, start, next, end);
    ReadablesVisible(read, rows, next, end);
    var readable := Visible(read, rows, next, end);
    hide Visible, Readables;
    assert UpTo(changes + readable, limit) == changes + readable[..Min(|readable|, limit - |changes|)];
    if next == end {
      assert UpTo(changes, limit) == changes;
      assert next + limit > |rows|;
    } else {
      assert Readables(read, rows, next, end) == Some(readable);
      var changes' := changes + readable[..Min(|readable|, limit - |changes|)];
      assert changes' == UpTo(changes + readable, limit);
      assert |changes'| >= limit <==> |changes + readable| >= limit;
      assert |changes'| < limit ==> changes' == changes + readable;
    }
  }

  /** Counting readable rows page by page, the count passes the limit without meeting it at the end of a page. */
  predicate Overfills(read: LogRow -> Readable, rows: seq<LogRow>, limit: nat, next: nat, seen: nat)
    requires next <= |rows|
    decreases |rows| - next
  {
    var end := Min(next + limit, |rows|);
    match Readables(read, rows, next, end)
    case None => false
    case Some(readable) =>
      var seen' := seen + |readable|;
      seen' > limit
        || (seen' < limit && next < end && next + limit <= |rows| && Overfills(read, rows, limit, end, seen'))
  }

  /** The loop from any page on, for any reader. */
  lemma {:induction false} PullFrom(read: LogRow -> Readable, rows: seq<LogRow>, limit: nat, start: nat, next: nat)
    requires Decidable(read, rows) && start <= next <= |rows|
    requires |Visible(read, rows, start, next)| < limit
    ensures PullPages(read, rows, limit, next, Visible(read, rows, start, next)).Pulled?
    ensures var Pulled(changes, end, hasMore) := PullPages(read, rows, limit, next, Visible(read, rows, start, next));
      && next <= end <= |rows|
      && changes == UpTo(Visible(read, rows, start, end), limit)
      && (if hasMore then next < end && |changes| == limit else end == |rows|)
      && (|Visible(read, rows, start, end)| > limit <==>
          Overfills(read, rows, limit, next, |Visible(read, rows, start, next)|))
    decreases |rows| - next
  {
    var end := Min(next + limit, |rows|);
    PullPagesStep(read, rows, limit, start, next);
    VisibleSplits(read, rows, start, next, end);
    ReadablesVisible(read, rows, next, end);
    hide Visible, Readables, PullPages;
    if next + limit <= |rows| && |Visible(read, rows, start, end)| < limit {
      PullFrom(read, rows, limit, start, end);
    }
  }

  /** One Pull, for any reader: the cursor only moves forward, has_more false means that nothing lies after it, the
      answer holds the first of the readable rows it moved past, up to the limit, and it holds all of them exactly when
      the page counts do not overfill it. */
  lemma PullOnce(read: LogRow -> Readable, rows: seq<LogRow>, limit: nat, start: nat)
    requires Decidable(read, rows) && limit >= 1 && start <= |rows|
    ensures PullPages(read, rows, limit, start, []).Pulled?
    ensures var Pulled(changes, next, hasMore) := PullPages(read, rows, limit, start, []);
      && start <= next <= |rows|
      && changes == UpTo(Visible(read, rows, start, next), limit)
      && (if hasMore then start < next && |changes| == limit else next == |rows|)
      && (changes == Visible(read, rows, start, next) <==> !Overfills(read, rows, limit, start, 0))
  {
    assert Visible(read, rows, start, start) == [];
    PullFrom(read, rows, limit, start, start);
  }

  /** The smallest loss: with limit 2, one hidden row before three readable ones hides the last of them for good. */
  lemma FilteredPullLosesRow(read: LogRow -> Readable, rows: seq<LogRow>)
    requires |rows| == 4 && read(rows[0]) == Hidden
    requires forall i | 1 <= i < 4 :: read(rows[i]) == CanRead
    ensures PullPages(read, rows, 2, 0, []) == Pulled([rows[1], rows[2]], 4, true)
  {
    assert Visible(read, rows, 0, 1) == [];
    assert Visible(read, rows, 0, 2) == [rows[1]];
    assert Visible(read, rows, 0, 3) == [rows[1], rows[2]];
    assert Visible(read, rows, 0, 4) == [rows[1], rows[2], rows[3]];
    assert Decidable(read, rows);
    PullPagesStep(read, rows, 2, 0, 0);
    PullPagesStep(read, rows, 2, 0, 2);
  }

  // ----- repeated pulls -----------------------------------------------------

  /** Everything a client receives by pulling from its last cursor until has_more is false. */
  function PullChain(read: LogRow -> Readable, rows: seq<LogRow>, limit: nat, start: nat): seq<LogRow>
    requires start <= |rows| && limit >= 1
    decreases |rows| - start
  {
    match PullPages(read, rows, limit, start, [])
    case PullFailed => []
    case Pulled(changes, next, hasMore) =>
      changes + if hasMore && start < next <= |rows| then PullChain(read, rows, limit, next) else []
  }

  /** A reader who may read everything loses nothing in any one pull. */
  lemma UnfilteredPull(read: LogRow -> Readable, rows: seq<LogRow>, limit: nat, start: nat)
    requires ReadsAll(read, rows) && limit >= 1 && start <= |rows|
    ensures var end := Min(start + limit, |rows|);
      PullPages(read, rows, limit, start, []) == Pulled(rows[start..end], end, start + limit <= |rows|)
  {
    var end := Min(start + limit, |rows|);
    assert Visible(read, rows, start, start) == [];
    PullPagesStep(read, rows, limit, start, start);
    ReadablesVisible(read, rows, start, end);
  }

  /** Such a reader receives exactly the rest of the log, each row once and in order. */
  lemma {:induction false} UnfilteredChain(read: LogRow -> Readable, rows: seq<LogRow>, limit: nat, start: nat)
    requires ReadsAll(read, rows) && limit >= 1 && start <= |rows|
    ensures PullChain(read, rows, limit, start) == rows[start..]
    decreases |rows| - start
  {
    UnfilteredPull(read, rows, limit, start);
    var Pulled(changes, next, hasMore) := PullPages(read, rows, limit, start, []);
    assert changes + rows[next..] == rows[start..];
    if hasMore {
      UnfilteredChain(read, rows, limit, next);
      hide *;
    } else {
      assert next == |rows|;
      hide *;
    }
  }

  /** Initial sync: pulling from the start gives a client of a reachable state exactly the live tables. */
  lemma PullingEverythingMirrors(env: Env, core: Core, read: LogRow -> Readable, limit: nat)
    requires Reachable(env, core) && ReadsAll(read, core.log) && limit >= 1
    ensures Mirrors(env, ClientFold(PullChain(read, InCursorOrder(core.log), limit, 0)), core.rows)
  {
    hide Reachable, Mirrors;
    ReachableLogSorted(env, core);
    UnfilteredChain(read, core.log, limit, 0);
    ReplayEqualsRebase(env, core);
  }

  // ----- the server's own readers ---------------------------------------------

  /** The authorizer answers about every club. */
  ghost predicate AlwaysAnswered(caller: Caller) {
    forall club: string :: caller.permissions(club).Some?
  }

  /** In a reachable state no row makes the permission check fail, because every row resolves to a scope. */
  lemma ReaderDecides(env: Env, core: Core, caller: Caller)
    requires Reachable(env, core) && (caller.sysAdmin || AlwaysAnswered(caller))
    ensures Decidable(Reader(caller, core.rows), core.log)
  {
    hide Reachable, StoredScope;
    forall i | 0 <= i < |core.log|
      ensures Reader(caller, core.rows)(core.log[i]) != ReadError
    {
      LogScopesResolve(env, core, i);
    }
  }

  /** A system administrator may read every row of a reachable state. */
  lemma AdminReadsAll(env: Env, core: Core, caller: Caller)
    requires Reachable(env, core) && caller.sysAdmin
    ensures ReadsAll(Reader(caller, core.rows), core.log)
  {
    hide Reachable, StoredScope;
    forall i | 0 <= i < |core.log|
      ensures Reader(caller, core.rows)(core.log[i]) == CanRead
    {
      LogScopesResolve(env, core, i);
    }
  }

  /** The rows of log[from..to] the caller may read, in order. */
  ghost function MayReadRows(caller: Caller, rows: Rows, log: seq<LogRow>, from: nat, to: nat): seq<LogRow>
    requires from <= to <= |log|
  {
    if from == to then []
    else
      var front := MayReadRows(caller, rows, log, from, to - 1);
      if MayRead(caller, rows, log[to - 1].record) then front + [log[to - 1]] else front
  }

  /** The rows the read decision lets through are those the caller may read. */
  lemma {:induction false} VisibleIsMayRead(caller: Caller, rows: Rows, log: seq<LogRow>, from: nat, to: nat)
    requires from <= to <= |log|
    ensures Visible(Reader(caller, rows), log, from, to) == MayReadRows(caller, rows, log, from, to)
  {
    hide MayRead, ReadDecision;
    if from < to {
      VisibleIsMayRead(caller, rows, log, from, to - 1);
      ReadableExactly(caller, rows, log[to - 1].record);
    }
  }

  /** A reader who passes over the rows the permission check fails on. */
  function Lenient(read: LogRow -> Readable): LogRow -> Readable {
    (row: LogRow) => if read(row) == ReadError then Hidden else read(row)
  }

  lemma {:induction false} LenientReadables(read: LogRow -> Readable, rows: seq<LogRow>, from: nat, to: nat)
    requires from <= to <= |rows| && Readables(read, rows, from, to).Some?
    ensures Readables(Lenient(read), rows, from, to) == Readables(read, rows, from, to)
  {
    if from < to {
      LenientReadables(read, rows, from, to - 1);
    }
  }

  /** A pull that did not fail met no such row. */
  lemma {:induction false} LenientPull(read: LogRow -> Readable, rows: seq<LogRow>, limit: nat, next: nat,
                                       changes: seq<LogRow>)
    requires next <= |rows| && |changes| < limit && PullPages(read, rows, limit, next, changes).Pulled?
    ensures PullPages(Lenient(read), rows, limit, next, changes) == PullPages(read, rows, limit, next, changes)
    decreases |rows| - next
  {
    hide Lenient, Readables;
    var end := Min(next + limit, |rows|);
    if next < end {
      LenientReadables(read, rows, next, end);
      var readable := Readables(read, rows, next, end).value;
      var changes' := changes + readable[..Min(|readable|, limit - |changes|)];
      if end - next == limit && |changes'| < limit {
        LenientPull(read, rows, limit, end, changes');
      }
    }
  }

  lemma {:induction false} LenientVisible(read: LogRow -> Readable, rows: seq<LogRow>, from: nat, to: nat)
    requires from <= to <= |rows|
    ensures Visible(Lenient(read), rows, from, to) == Visible(read, rows, from, to)
  {
    if from < to {
      LenientVisible(read, rows, from, to - 1);
    }
  }

  /** Any pull that is answered: the answer holds the first of the rows the caller may read among those it moved past,
      up to the limit and in log order, and nothing else. */
  lemma AnsweredPull(caller: Caller, rows: Rows, log: seq<LogRow>, limit: nat, start: nat)
    requires limit >= 1 && start <= |log|
    requires PullPages(Reader(caller, rows), log, limit, start, []).Pulled?
    ensures var Pulled(changes, next, hasMore) := PullPages(Reader(caller, rows), log, limit, start, []);
      && start <= next <= |log|
      && changes == UpTo(MayReadRows(caller, rows, log, start, next), limit)
      && (if hasMore then start < next && |changes| == limit else next == |log|)
  {
    var read := Reader(caller, rows);
    assert Decidable(Lenient(read), log);
    hide Reader, PullPages, Decidable, Overfills, Visible, Lenient, MayReadRows, UpTo;
    LenientPull(read, log, limit, start, []);
    PullOnce(Lenient(read), log, limit, start);
    var next := PullPages(read, log, limit, start, []).next;
    LenientVisible(read, log, start, next);
    VisibleIsMayRead(caller, rows, log, start, next);
  }

  /** Scope totality at work: on a reachable state Pull does not fail, for any caller the authorizer answers about, and
      it gives a system administrator the stretch of the log it moves past, without a gap. */
  lemma ReachablePull(env: Env, core: Core, caller: Caller, limit: nat, start: nat)
    requires Reachable(env, core) && (caller.sysAdmin || AlwaysAnswered(caller))
    requires limit >= 1 && start <= |core.log|
    ensures InCursorOrder(core.log) == core.log
    ensures var result := PullPages(Reader(caller, core.rows), core.log, limit, start, []);
      && result.Pulled?
      && start <= result.next <= |core.log|
      && (!result.hasMore ==> result.next == |core.log|)
      && (caller.sysAdmin ==> result.changes == core.log[start..result.next])
  {
    ReachableLogSorted(env, core);
    ReaderDecides(env, core, caller);
    hide Reachable, Reader, PullPages, InCursorOrder, AlwaysAnswered, Decidable, Overfills, Visible;
    PullOnce(Reader(caller, core.rows), core.log, limit, start);
    if caller.sysAdmin {
      AdminReadsAll(env, core, caller);
      UnfilteredPull(Reader(caller, core.rows), core.log, limit, start);
    }
  }

  /** The repaired loop: stop at the row that fills the answer, with the cursor on that row. */
  function PullExact(read: LogRow -> Readable, rows: seq<LogRow>, limit: nat, next: nat,
                     changes: seq<LogRow>): PullResult
    requires next <= |rows|
    decreases |rows| - next
  {
    if |changes| >= limit then Pulled(changes, next, true)
    else if next == |rows| then Pulled(changes, next, false)
    else
      match read(rows[next])
      case ReadError => PullFailed
      case Hidden => PullExact(read, rows, limit, next + 1, changes)
      case CanRead => PullExact(read, rows, limit, next + 1, changes + [rows[next]])
  }

  /** The repaired loop delivers, to any reader, every readable row it moves past. */
  lemma {:induction false} ExactPullLossless(read: LogRow -> Readable, rows: seq<LogRow>, limit: nat, start: nat,
                                             next: nat)
    requires Decidable(read, rows) && start <= next <= |rows|
    requires |Visible(read, rows, start, next)| <= limit
    ensures PullExact(read, rows, limit, next, Visible(read, rows, start, next)).Pulled?
    ensures var Pulled(changes, end, hasMore) := PullExact(read, rows, limit, next, Visible(read, rows, start, next));
      && next <= end <= |rows|
      && changes == Visible(read, rows, start, end)
      && (if hasMore then |changes| == limit else end == |rows|)
    decreases |rows| - next
  {
    if |Visible(read, rows, start, next)| < limit && next < |rows| {
      assert read(rows[next]) != ReadError;
      ExactPullLossless(read, rows, limit, start, next + 1);
    }
  }

  /** Everything a client receives by repeating the repaired pull. */
  function ExactChain(read: LogRow -> Readable, rows: seq<LogRow>, limit: nat, start: nat): seq<LogRow>
    requires start <= |rows| && limit >= 1
    decreases |rows| - start
  {
    match PullExact(read, rows, limit, start, [])
    case PullFailed => []
    case Pulled(changes, next, hasMore) =>
      changes + if hasMore && start < next <= |rows| then ExactChain(read, rows, limit, next) else []
  }

  /** Repeating it gives any reader exactly the readable rows of the rest of the log, each once and in order. */
  lemma {:induction false} ExactChainComplete(read: LogRow -> Readable, rows: seq<LogRow>, limit: nat, start: nat)
    requires Decidable(read, rows) && limit >= 1 && start <= |rows|
    ensures ExactChain(read, rows, limit, start) == Visible(read, rows, start, |rows|)
    decreases |rows| - start
  {
    assert Visible(read, rows, start, start) == [];
    ExactPullLossless(read, rows, limit, start, start);
    var Pulled(changes, next, hasMore) := PullExact(read, rows, limit, start, []);
    if hasMore {
      VisibleSplits(read, rows, start, next, |rows|);
      ExactChainComplete(read, rows, limit, next);
    }
  }
}
