/**
 Closing of pending tasks before each Loop 0 step (`_reconcile_pending_tasks` in
 astrata/loop0/runner.py). The scan walks over the rows that were stored when it began,
 while each look for duplicates reads the rows as they are by then.
 */
module Duplicates {
  import opened Options
  import opened TaskGraph

  datatype Reason = LowSignal | DuplicatePending | GoalRealized | Answered

  /** Source, source communication, title, description and completion type, trimmed and in lower case. */
  datatype Subject = Subject(source: string, communication: string, title: string, description: string, completion: string)

  /**
   One row of the task table. `lowSignal` and `answered` depend on its texts and on completed tasks,
   `realized` on the file system; none of them changes while a pass runs.
   */
  datatype Row = Row(id: nat, status: Status, created: nat, updated: nat, subject: Subject,
                     lowSignal: bool, realized: bool, answered: bool, executable: bool,
                     closure: Option<Reason>)

  type Table = seq<Row>

  /** The rows are keyed by id. */
  ghost predicate Keyed(table: Table) {
    forall i, j | 0 <= i < j < |table| :: table[i].id != table[j].id
  }

  function Group(s: Subject): Option<Subject> {
    if s.title == "" && s.description == "" then None
    else if s.source in {"message_intake", "message_task_followup"} && s.communication != "" then Some(s)
    else if s.source == "loop0_runner" then Some(Subject(s.source, "", s.title, "", s.completion))
    else None
  }

  /** Strictly smaller creation time, update time and id, compared in this order. */
  predicate Earlier(a: Row, b: Row) {
    || a.created < b.created
    || (a.created == b.created && a.updated < b.updated)
    || (a.created == b.created && a.updated == b.updated && a.id < b.id)
  }

  predicate Peer(a: Row, b: Row) {
    a.status == Pending && Group(b.subject).Some? && Group(a.subject) == Group(b.subject)
  }

  /**
   Which tasks count as duplicates: messages and their follow-ups that agree in everything, and tasks of the
   runner itself that agree in title and completion type; tasks of other sources never do.
   */
  lemma PeersExactly(a: Row, b: Row)
    ensures Peer(a, b) <==>
      && a.status == Pending && a.subject.source == b.subject.source
      && (a.subject.title != "" || a.subject.description != "") && (b.subject.title != "" || b.subject.description != "")
      && (|| (a.subject == b.subject && a.subject.communication != ""
              && (a.subject.source == "message_intake" || a.subject.source == "message_task_followup"))
          || (a.subject.source == "loop0_runner"
              && a.subject.title == b.subject.title && a.subject.completion == b.subject.completion))
  {
    assert "message_intake" != "loop0_runner" && "message_task_followup" != "loop0_runner";
    if Peer(a, b) {
      assert Group(a.subject).value.source == a.subject.source && Group(b.subject).value.source == b.subject.source;
    }
  }

  predicate EarlierPeer(a: Row, b: Row) {
    Peer(a, b) && Earlier(a, b)
  }

  ghost predicate HasEarlierPeer(table: Table, row: Row) {
    exists j :: 0 <= j < |table| && EarlierPeer(table[j], row)
  }

  /** A rule other than the one about duplicates closes the row. */
  predicate ClosedOnItsOwn(row: Row) {
    row.lowSignal || row.realized || row.answered
  }

  function Close(row: Row, status: Status, reason: Reason, now: nat): Row {
    row.(status := status, updated := now, closure := Some(reason))
  }

  ghost function Reconciled(table: Table, i: nat, now: nat): Row
    requires i < |table|
  {
    var row := table[i];
    if row.status != Pending then row
    else if row.lowSignal then Close(row, Superseded, LowSignal, now)
    else if HasEarlierPeer(table, row) then Close(row, Superseded, DuplicatePending, now)
    else if row.realized then Close(row, Satisfied, GoalRealized, now)
    else if row.answered then Close(row, if row.executable then Satisfied else Superseded, Answered, now)
    else row
  }

  /** The table after the first `n` rows of the scan. */
  ghost function Scanned(table: Table, n: nat, now: nat): (r: Table)
    requires n <= |table|
    ensures |r| == |table|
  {
    if n == 0 then table
    else
      var before := Scanned(table, n - 1, now);
      before[n - 1 := Reconciled(before, n - 1, now)]
  }

  ghost function Pass(table: Table, now: nat): Table {
    Scanned(table, |table|, now)
  }

  /** The rows that differ afterwards, in scan order. */
  ghost function Changed(before: Table, after: Table): Table
    requires |before| == |after|
  {
    if before == [] then []
    else
      var n := |before| - 1;
      Changed(before[..n], after[..n]) + if after[n] == before[n] then [] else [after[n]]
  }

  // ---------- what a scan leaves alone ----------

  /** Everything but status, update time and closure. */
  predicate SameTask(a: Row, b: Row) {
    a.(status := b.status, updated := b.updated, closure := b.closure) == b
  }

  lemma {:induction false} ScannedRow(table: Table, n: nat, now: nat, i: nat)
    requires i < |table| && n <= |table|
    ensures n <= i ==> Scanned(table, n, now)[i] == table[i]
    ensures i < n ==> Scanned(table, n, now)[i] == Reconciled(Scanned(table, i, now), i, now)
    ensures SameTask(Scanned(table, n, now)[i], table[i])
    ensures Scanned(table, n, now)[i].status == Pending ==> Scanned(table, n, now)[i] == table[i]
  {
    if n > 0 {
      ScannedRow(table, n - 1, now, i);
    }
  }

  /** A row that is pending after a longer scan was so after the shorter one. */
  lemma PendingEarlier(table: Table, m: nat, n: nat, now: nat, j: nat)
    requires m <= n <= |table| && j < |table| && Scanned(table, n, now)[j].status == Pending
    ensures Scanned(table, n, now)[j] == Scanned(table, m, now)[j] == table[j] && table[j].status == Pending
  {
    ScannedRow(table, m, now, j);
    ScannedRow(table, n, now, j);
  }

  // ---------- the result of one pass ----------

  ghost predicate OnePendingPerGroup(table: Table) {
    forall i, j | 0 <= i < |table| && 0 <= j < |table| && i != j && table[i].status == Pending :: !Peer(table[j], table[i])
  }

  /** Which rows stay pending: those no rule closes and whose earlier peers were all scanned and closed before them. */
  lemma SurvivesExactly(table: Table, now: nat, i: nat)
    requires i < |table| && table[i].status == Pending
    ensures Pass(table, now)[i].status == Pending <==>
      && !ClosedOnItsOwn(table[i])
      && forall j | 0 <= j < |table| && EarlierPeer(table[j], table[i]) :: j < i && Pass(table, now)[j].status != Pending
  {
    var n := |table|;
    var turn := Scanned(table, i, now);
    ScannedRow(table, n, now, i);
    ScannedRow(table, i, now, i);
    forall j | 0 <= j < n && EarlierPeer(table[j], table[i])
      ensures EarlierPeer(turn[j], table[i]) <==> !(j < i && Pass(table, now)[j].status != Pending)
    {
      ScannedRow(table, i, now, j);
      ScannedRow(table, n, now, j);
    }
    forall j | 0 <= j < n && EarlierPeer(turn[j], table[i]) ensures EarlierPeer(table[j], table[i]) {
      ScannedRow(table, i, now, j);
    }
  }

  lemma LaterPeerCloses(table: Table, now: nat, i: nat, j: nat)
    requires i < |table| && j < |table| && Pass(table, now)[i].status == Pending && Pass(table, now)[j].status == Pending
    ensures !EarlierPeer(table[j], table[i])
  {
    PendingEarlier(table, 0, |table|, now, i);
    SurvivesExactly(table, now, i);
  }

  /** After a pass every group of duplicates has at most one pending row. */
  lemma PassLeavesOnePending(table: Table, now: nat)
    requires Keyed(table)
    ensures OnePendingPerGroup(Pass(table, now))
  {
    var after := Pass(table, now);
    forall i, j | 0 <= i < |after| && 0 <= j < |after| && i != j && after[i].status == Pending ensures !Peer(after[j], after[i]) {
      PendingEarlier(table, 0, |table|, now, i);
      if after[j].status == Pending {
        PendingEarlier(table, 0, |table|, now, j);
        LaterPeerCloses(table, now, i, j);
        LaterPeerCloses(table, now, j, i);
      }
    }
  }

  /** A row closed as a duplicate had, at its turn, a pending peer with a strictly smaller key. */
  lemma DuplicateHadEarlierPeer(table: Table, now: nat, i: nat)
    requires i < |table| && table[i].status == Pending && table[i].closure.None?
    requires Pass(table, now)[i].closure == Some(DuplicatePending)
    ensures exists j :: 0 <= j < |table| && j != i && EarlierPeer(Scanned(table, i, now)[j], table[i])
  {
    ScannedRow(table, |table|, now, i);
    ScannedRow(table, i, now, i);
    var j :| 0 <= j < |table| && EarlierPeer(Scanned(table, i, now)[j], table[i]);
    assert j != i;
  }

  ghost function EarlierPeers(table: Table, i: nat): set<nat>
    requires i < |table|
  {
    set j: nat | j < |table| && EarlierPeer(table[j], table[i])
  }

  /** Every pending row of a group has a first one at or before it. */
  lemma {:induction false} FirstOfGroup(table: Table, i: nat) returns (m: nat)
    requires i < |table| && table[i].status == Pending
    ensures m < |table| && table[m].status == Pending && !HasEarlierPeer(table, table[m])
    ensures m == i || EarlierPeer(table[m], table[i])
    decreases |EarlierPeers(table, i)|
  {
    if j: nat :| j in EarlierPeers(table, i) {
      assert j !in EarlierPeers(table, j) && EarlierPeers(table, j) <= EarlierPeers(table, i);
      assert EarlierPeers(table, j) < EarlierPeers(table, i);
      Cardinality(EarlierPeers(table, j), EarlierPeers(table, i));
      m := FirstOfGroup(table, j);
    } else {
      m := i;
      forall j: nat | j < |table| ensures !EarlierPeer(table[j], table[i]) {
        assert j !in EarlierPeers(table, i);
      }
    }
  }

  lemma Cardinality(a: set<nat>, b: set<nat>)
    requires a < b
    ensures |a| < |b|
  {
    var x :| x in b && x !in a;
    assert |b - a| > 0 && b == a + (b - a);
  }

  /** When no other rule fires, exactly the minimum of each group survives, wherever it stands in the scan. */
  lemma MinimumSurvives(table: Table, now: nat, i: nat)
    requires i < |table| && table[i].status == Pending
    requires forall j | 0 <= j < |table| && (j == i || Peer(table[j], table[i])) :: !ClosedOnItsOwn(table[j])
    ensures Pass(table, now)[i].status == Pending <==> !HasEarlierPeer(table, table[i])
  {
    SurvivesExactly(table, now, i);
    if HasEarlierPeer(table, table[i]) {
      var m := FirstOfGroup(table, i);
      SurvivesExactly(table, now, m);
      assert EarlierPeer(table[m], table[i]);
    }
  }

  // ---------- how a row is closed ----------

  /** Texts and origin make the two tasks duplicates of each other. */
  predicate SameWork(a: Subject, b: Subject) {
    && a.source == b.source
    && (a.title != "" || a.description != "") && (b.title != "" || b.description != "")
    && (|| (a == b && a.communication != "" && (a.source == "message_intake" || a.source == "message_task_followup"))
        || (a.source == "loop0_runner" && a.title == b.title && a.completion == b.completion))
  }

  /** The first row was created before the second, or at once and updated before it, or else has the smaller id. */
  predicate Ahead(a: Row, b: Row) {
    if a.created != b.created then a.created < b.created
    else if a.updated != b.updated then a.updated < b.updated
    else a.id < b.id
  }

  /** When the scan comes to row `i`, row `j` is a pending duplicate ahead of it: not yet scanned, or left pending. */
  ghost predicate Blocks(table: Table, now: nat, i: nat, j: nat) {
    && i < |table| && j < |table|
    && table[j].status == Pending && SameWork(table[j].subject, table[i].subject) && Ahead(table[j], table[i])
    && (i <= j || Pass(table, now)[j].status == Pending)
  }

  lemma EarlierPeersBlock(table: Table, now: nat, i: nat, j: nat)
    requires i < |table| && j < |table| && table[i].status == Pending
    ensures EarlierPeer(Scanned(table, i, now)[j], table[i]) <==> Blocks(table, now, i, j)
  {
    ScannedRow(table, i, now, j);
    ScannedRow(table, |table|, now, j);
    PeersExactly(Scanned(table, i, now)[j], table[i]);
  }

  /**
   What a pass makes of a pending row: chatter and duplicates are superseded; what the file system shows done is
   satisfied; what later work answered is satisfied if it was executable and superseded otherwise; all else stays.
   */
  lemma ClosedExactly(table: Table, now: nat, i: nat)
    requires i < |table| && table[i].status == Pending
    ensures var row, after := table[i], Pass(table, now)[i];
      var duplicate := exists j: nat :: Blocks(table, now, i, j);
      && (row.lowSignal ==> after == row.(status := Superseded, updated := now, closure := Some(LowSignal)))
      && (!row.lowSignal && duplicate ==> after == row.(status := Superseded, updated := now, closure := Some(DuplicatePending)))
      && (!row.lowSignal && !duplicate && row.realized ==>
            after == row.(status := Satisfied, updated := now, closure := Some(GoalRealized)))
      && (!row.lowSignal && !duplicate && !row.realized && row.answered ==>
            after == row.(status := after.status, updated := now, closure := Some(Answered))
            && (if row.executable then after.status == Satisfied else after.status == Superseded))
      && (!row.lowSignal && !duplicate && !row.realized && !row.answered ==> after == row)
  {
    ScannedRow(table, |table|, now, i);
    ScannedRow(table, i, now, i);
    var turn := Scanned(table, i, now);
    forall j: nat | j < |table| ensures EarlierPeer(turn[j], table[i]) <==> Blocks(table, now, i, j) {
      EarlierPeersBlock(table, now, i, j);
    }
    if j: nat :| Blocks(table, now, i, j) {
      assert EarlierPeer(turn[j], table[i]);
    }
  }

  /** Rows that were not pending are left alone. */
  lemma OthersLeftAlone(table: Table, now: nat, i: nat)
    requires i < |table| && table[i].status != Pending
    ensures Pass(table, now)[i] == table[i]
  {
    ScannedRow(table, |table|, now, i);
    ScannedRow(table, i, now, i);
  }

  // ---------- what a closed task means for its dependents ----------

  /** The task store has the statuses of the rows. */
  ghost predicate Reflects(tasks: Tasks, table: Table) {
    forall i | 0 <= i < |table| :: table[i].id in tasks && tasks[table[i].id].status == table[i].status
  }

  /** Nobody who depends on a task closed as a duplicate, or as chatter, is ever selected. */
  lemma DuplicateHoldsDependents(table: Table, now: nat, i: nat, tasks: Tasks, t: TaskId, order: seq<TaskId>)
    requires i < |table| && table[i].status == Pending && (table[i].lowSignal || exists j: nat :: Blocks(table, now, i, j))
    requires Reflects(tasks, Pass(table, now)) && Edge(tasks, t, table[i].id) && SelectionRun(tasks, order)
    ensures t !in order
  {
    ClosedExactly(table, now, i);
    assert Pass(table, now)[i].id == table[i].id;
    SupersededNeverUnblocks(tasks, order, t, table[i].id);
  }

  /** Nobody has to wait for a dependency that a pass found realized. */
  lemma RealizedLetsDependentsGo(table: Table, now: nat, i: nat, tasks: Tasks, t: TaskId)
    requires i < |table| && table[i].status == Pending && table[i].realized && !table[i].lowSignal
    requires forall j: nat :: !Blocks(table, now, i, j)
    requires Reflects(tasks, Pass(table, now))
    ensures !Waits(tasks, t, table[i].id)
  {
    ClosedExactly(table, now, i);
    assert Pass(table, now)[i].id == table[i].id;
  }

  // ---------- a second pass ----------

  lemma SettledHasNoEarlierPeer(table: Table, i: nat)
    requires OnePendingPerGroup(table) && i < |table| && table[i].status == Pending
    ensures !HasEarlierPeer(table, table[i])
  {
    forall j | 0 <= j < |table| ensures !EarlierPeer(table[j], table[i]) {
    }
  }

  /** Once groups have one pending row each, no pass closes a row as a duplicate, whatever else it closes. */
  lemma SettledClosesNoDuplicate(table: Table, now: nat, i: nat)
    requires OnePendingPerGroup(table) && i < |table| && table[i].closure.None?
    ensures Pass(table, now)[i].closure != Some(DuplicatePending)
  {
    var turn := Scanned(table, i, now);
    ScannedRow(table, |table|, now, i);
    ScannedRow(table, i, now, i);
    if table[i].status == Pending {
      SettledHasNoEarlierPeer(table, i);
      forall j | 0 <= j < |turn| ensures !EarlierPeer(turn[j], table[i]) {
        ScannedRow(table, i, now, j);
        assert !EarlierPeer(table[j], table[i]);
      }
    }
  }

  lemma NothingToClose(table: Table, now: nat, n: nat)
    requires OnePendingPerGroup(table) && n <= |table|
    requires forall i | 0 <= i < |table| && table[i].status == Pending :: !ClosedOnItsOwn(table[i])
    ensures Scanned(table, n, now) == table
  {
    if n > 0 {
      NothingToClose(table, now, n - 1);
      if table[n - 1].status == Pending {
        SettledHasNoEarlierPeer(table, n - 1);
      }
    }
  }

  /** With the same findings a second pass changes nothing at all. */
  lemma PassIsIdempotent(table: Table, now: nat, later: nat)
    requires Keyed(table)
    ensures Pass(Pass(table, now), later) == Pass(table, now)
  {
    var after := Pass(table, now);
    PassLeavesOnePending(table, now);
    forall i | 0 <= i < |after| && after[i].status == Pending ensures !ClosedOnItsOwn(after[i]) {
      PendingEarlier(table, 0, |table|, now, i);
      SurvivesExactly(table, now, i);
    }
    NothingToClose(after, later, |after|);
  }

  // ---------- the table ----------

  class TaskTable {
    var rows: Table

    constructor (stored: Table)
      ensures rows == stored
    {
      rows := stored;
    }

    /** Collects the pending peers and asks whether their minimum is another task. */
    method IsDuplicatePendingTask(row: Row) returns (duplicate: bool)
      requires Keyed(rows) && row in rows && row.status == Pending
      ensures duplicate <==> HasEarlierPeer(rows, row)
    {
      if Group(row.subject).None? {
        return false;
      }
      var peers: seq<Row> := [];
      for k := 0 to |rows|
        invariant forall p | p in peers :: p in rows[..k] && Peer(p, row)
        invariant forall j | 0 <= j < k && Peer(rows[j], row) :: rows[j] in peers
      {
        if rows[k].status == Pending && Group(rows[k].subject) == Group(row.subject) {
          peers := peers + [rows[k]];
        }
      }
      if |peers| <= 1 {
        OnlyPeer(rows, row, peers);
        return false;
      }
      var canonical := Minimum(peers);
      assert row in peers;
      duplicate := canonical.id != row.id;
      SmallestPeer(rows, row, canonical);
    }

    /** What closing a stored row would make of it, if any rule closes it. */
    method ReconciledTaskPayload(i: nat, now: nat) returns (update: Option<Row>)
      requires i < |rows| && Keyed(rows)
      ensures Reconciled(rows, i, now) == if update.Some? then update.value else rows[i]
      ensures update.Some? ==> update.value != rows[i]
    {
      var row := rows[i];
      if row.status != Pending {
        return None;
      }
      if row.lowSignal {
        return Some(Close(row, Superseded, LowSignal, now));
      }
      var duplicate := IsDuplicatePendingTask(row);
      if duplicate {
        return Some(Close(row, Superseded, DuplicatePending, now));
      }
      if row.realized {
        return Some(Close(row, Satisfied, GoalRealized, now));
      }
      if row.answered {
        return Some(Close(row, if row.executable then Satisfied else Superseded, Answered, now));
      }
      update := None;
    }

    method ReconcilePendingTasks(now: nat) returns (reconciled: seq<Row>)
      requires Keyed(rows)
      modifies this
      ensures rows == Pass(old(rows), now)
      ensures reconciled == Changed(old(rows), rows)
    {
      var snapshot := rows;
      reconciled := [];
      for i := 0 to |snapshot|
        invariant rows == Scanned(snapshot, i, now)
        invariant reconciled == Changed(snapshot[..i], rows[..i])
      {
        ScannedRow(snapshot, i, now, i);
        ScannedKeyed(snapshot, i, now);
        ghost var before := rows;
        var update := ReconciledTaskPayload(i, now);
        if update.Some? {
          rows := rows[i := update.value];
          reconciled := reconciled + [update.value];
        }
        ChangedOneMore(snapshot, before, rows, i);
      }
      assert snapshot[..|snapshot|] == snapshot && rows[..|snapshot|] == rows;
    }
  }

  lemma ChangedOneMore(snapshot: Table, before: Table, after: Table, i: nat)
    requires i < |snapshot| == |before| == |after|
    requires forall j | 0 <= j < i :: after[j] == before[j]
    ensures Changed(snapshot[..i + 1], after[..i + 1])
      == Changed(snapshot[..i], before[..i]) + if after[i] == snapshot[i] then [] else [after[i]]
  {
    assert snapshot[..i + 1][..i] == snapshot[..i] && after[..i + 1][..i] == before[..i];
  }

  method Minimum(peers: seq<Row>) returns (least: Row)
    requires peers != []
    ensures least in peers && forall k | 0 <= k < |peers| :: !Earlier(peers[k], least)
  {
    least := peers[0];
    for k := 1 to |peers|
      invariant least in peers && forall j | 0 <= j < k :: !Earlier(peers[j], least)
    {
      if Earlier(peers[k], least) {
        least := peers[k];
      }
    }
  }

  lemma ScannedKeyed(table: Table, n: nat, now: nat)
    requires Keyed(table) && n <= |table|
    ensures Keyed(Scanned(table, n, now))
  {
    forall i | 0 <= i < |table| ensures Scanned(table, n, now)[i].id == table[i].id {
      ScannedRow(table, n, now, i);
    }
  }

  lemma OnlyPeer(table: Table, row: Row, peers: seq<Row>)
    requires row in table && Peer(row, row) && |peers| <= 1
    requires forall j | 0 <= j < |table| && Peer(table[j], row) :: table[j] in peers
    ensures !HasEarlierPeer(table, row)
  {
    assert row in peers;
    forall j | 0 <= j < |table| && Peer(table[j], row) ensures table[j] == row {
      assert table[j] in peers;
    }
  }

  lemma SmallestPeer(table: Table, row: Row, least: Row)
    requires Keyed(table) && row in table && Peer(row, row) && least in table && Peer(least, row)
    requires forall j | 0 <= j < |table| && Peer(table[j], row) :: !Earlier(table[j], least)
    ensures least.id != row.id <==> HasEarlierPeer(table, row)
  {
    var a :| 0 <= a < |table| && table[a] == least;
    var b :| 0 <= b < |table| && table[b] == row;
    if least.id != row.id {
      assert !Earlier(row, least);
      assert EarlierPeer(table[a], row);
    }
  }
}
