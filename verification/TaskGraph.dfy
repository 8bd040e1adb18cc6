/**
 Dependency-gated selection of Loop 0 tasks (astrata/loop0/runner.py): when a task is
 ready, which tasks a run of selections can complete, and what never becomes ready.
 */
module TaskGraph {
  import opened Graphs
  import opened Sequences

  type TaskId = nat

  datatype Status = Pending | Working | Blocked | Complete | Failed | Satisfied | Superseded

  datatype Task = Task(status: Status, dependencies: seq<TaskId>, activeChildren: seq<TaskId>)

  type Tasks = map<TaskId, Task>

  predicate Resolved(status: Status) {
    status == Complete || status == Satisfied
  }

  predicate Active(status: Status) {
    status == Pending || status == Working || status == Blocked
  }

  /** A known dependency is neither complete nor satisfied; an unknown one does not count. */
  predicate HasUnresolvedDependencies(tasks: Tasks, task: Task) {
    exists i :: 0 <= i < |task.dependencies|
      && task.dependencies[i] in tasks && !Resolved(tasks[task.dependencies[i]].status)
  }

  predicate HasActiveChildren(tasks: Tasks, task: Task) {
    exists i :: 0 <= i < |task.activeChildren|
      && task.activeChildren[i] in tasks
      && Active(tasks[task.activeChildren[i]].status)
  }

  predicate Ready(tasks: Tasks, t: TaskId)
    requires t in tasks
  {
    !HasUnresolvedDependencies(tasks, tasks[t]) && !HasActiveChildren(tasks, tasks[t])
  }

  // ---------- what tasks wait for ----------

  predicate Edge(tasks: Tasks, a: TaskId, b: TaskId) {
    a in tasks && b in tasks && b in tasks[a].dependencies
  }

  function Depends(tasks: Tasks): Relation {
    (a: TaskId, b: TaskId) => Edge(tasks, a, b)
  }

  /** An open dependency of the task, or an active child of it. */
  predicate Waits(tasks: Tasks, a: TaskId, b: TaskId) {
    && a in tasks && b in tasks
    && ((b in tasks[a].dependencies && !Resolved(tasks[b].status)) || (b in tasks[a].activeChildren && Active(tasks[b].status)))
  }

  function WaitsFor(tasks: Tasks): Relation {
    (a: TaskId, b: TaskId) => Waits(tasks, a, b)
  }

  /** A task is ready exactly when it waits for nothing. */
  lemma ReadyExactly(tasks: Tasks, t: TaskId)
    requires t in tasks
    ensures Ready(tasks, t) <==> forall d :: !Waits(tasks, t, d)
  {
    if HasUnresolvedDependencies(tasks, tasks[t]) {
      var i :| 0 <= i < |tasks[t].dependencies|
        && tasks[t].dependencies[i] in tasks && !Resolved(tasks[tasks[t].dependencies[i]].status);
      assert Waits(tasks, t, tasks[t].dependencies[i]);
    }
    if HasActiveChildren(tasks, tasks[t]) {
      var i :| 0 <= i < |tasks[t].activeChildren|
        && tasks[t].activeChildren[i] in tasks && Active(tasks[tasks[t].activeChildren[i]].status);
      assert Waits(tasks, t, tasks[t].activeChildren[i]);
    }
  }

  /** In terms of statuses: known dependencies are complete or satisfied, and known children neither pending, working nor blocked. */
  lemma ReadyByStatus(tasks: Tasks, t: TaskId)
    requires t in tasks
    ensures Ready(tasks, t) <==>
      && (forall d | d in tasks[t].dependencies && d in tasks :: tasks[d].status == Complete || tasks[d].status == Satisfied)
      && (forall c | c in tasks[t].activeChildren && c in tasks ::
            tasks[c].status != Pending && tasks[c].status != Working && tasks[c].status != Blocked)
  {
    ReadyExactly(tasks, t);
    forall d: TaskId ensures Waits(tasks, t, d) <==>
      && d in tasks
      && (|| (d in tasks[t].dependencies && tasks[d].status != Complete && tasks[d].status != Satisfied)
          || (d in tasks[t].activeChildren && (tasks[d].status == Pending || tasks[d].status == Working || tasks[d].status == Blocked)))
    {
    }
  }

  // ---------- progress ----------

  /** Pending tasks that wait only for each other. */
  ghost predicate Closed(tasks: Tasks, s: set<TaskId>) {
    forall t | t in s :: t in tasks && tasks[t].status == Pending && forall d | Waits(tasks, t, d) :: d in s
  }

  /** Some member of any nonempty closed set without a cycle is ready. */
  lemma SomeReady(tasks: Tasks, s: set<TaskId>) returns (t: TaskId)
    requires Closed(tasks, s) && AcyclicOn(WaitsFor(tasks), s) && s != {}
    ensures t in s && Ready(tasks, t)
  {
    t := SomeSink(WaitsFor(tasks), s);
    forall d ensures !Waits(tasks, t, d) {
      assert d in s ==> !WaitsFor(tasks)(t, d);
    }
    ReadyExactly(tasks, t);
  }

  // ---------- runs of selections ----------

  function Completed(tasks: Tasks, t: TaskId): Tasks
    requires t in tasks
  {
    tasks[t := tasks[t].(status := Complete)]
  }

  /** Each task of the order is pending and ready when its turn comes, and then completes. */
  ghost predicate SelectionRun(tasks: Tasks, order: seq<TaskId>)
    decreases |order|
  {
    order == [] ||
    (&& order[0] in tasks && tasks[order[0]].status == Pending && Ready(tasks, order[0])
     && SelectionRun(Completed(tasks, order[0]), order[1..]))
  }

  /** Nobody waits for a completed task any more, and nothing else changes. */
  lemma WaitsAfter(tasks: Tasks, t: TaskId, a: TaskId, d: TaskId)
    requires t in tasks
    ensures Waits(Completed(tasks, t), a, d) <==> d != t && Waits(tasks, a, d)
  {
  }

  lemma CompletingKeepsClosed(tasks: Tasks, s: set<TaskId>, t: TaskId)
    requires t in s && Closed(tasks, s) && AcyclicOn(WaitsFor(tasks), s)
    ensures Closed(Completed(tasks, t), s - {t}) && AcyclicOn(WaitsFor(Completed(tasks, t)), s - {t})
  {
    var after := Completed(tasks, t);
    forall u, d | u in s - {t} && Waits(after, u, d) ensures d in s - {t} {
      WaitsAfter(tasks, t, u, d);
    }
    forall w | Within(w, s - {t}) ensures !Cycle(WaitsFor(after), w) {
      if Cycle(WaitsFor(after), w) {
        forall i | 0 <= i < |w| - 1 ensures WaitsFor(tasks)(w[i], w[i + 1]) {
          assert WaitsFor(after)(w[i], w[i + 1]);
          WaitsAfter(tasks, t, w[i], w[i + 1]);
        }
        assert Cycle(WaitsFor(tasks), w) && Within(w, s);
      }
    }
  }

  /** A closed set without a cycle can be completed, one ready task after another. */
  lemma {:induction false} ClosedSetCompletes(tasks: Tasks, s: set<TaskId>) returns (order: seq<TaskId>)
    requires Closed(tasks, s) && AcyclicOn(WaitsFor(tasks), s)
    ensures SelectionRun(tasks, order) && |order| == |s| && SelectsExactly(order, s)
    decreases |s|
  {
    if s == {} {
      order := [];
    } else {
      var t := SomeReady(tasks, s);
      CompletingKeepsClosed(tasks, s, t);
      var rest := ClosedSetCompletes(Completed(tasks, t), s - {t});
      order := [t] + rest;
      assert order[1..] == rest;
    }
  }

  /** No run gets stuck: whatever members were selected so far, the others can follow. */
  lemma {:induction false} EveryRunExtends(tasks: Tasks, s: set<TaskId>, order: seq<TaskId>) returns (more: seq<TaskId>)
    requires Closed(tasks, s) && AcyclicOn(WaitsFor(tasks), s)
    requires SelectionRun(tasks, order) && Within(order, s)
    ensures SelectionRun(tasks, order + more) && |order + more| == |s| && SelectsExactly(order + more, s)
    decreases |order|
  {
    if order == [] {
      more := ClosedSetCompletes(tasks, s);
      assert [] + more == more;
    } else {
      var first, rest := order[0], order[1..];
      CompletingKeepsClosed(tasks, s, first);
      RestInside(tasks, s, order);
      more := EveryRunExtends(Completed(tasks, first), s - {first}, rest);
      FirstThenRest(s, first, rest + more);
      RunPrepended(tasks, first, rest + more);
      HeadAndRest(order, more);
    }
  }

  lemma RunPrepended(tasks: Tasks, first: TaskId, rest: seq<TaskId>)
    requires first in tasks && tasks[first].status == Pending && Ready(tasks, first)
    requires SelectionRun(Completed(tasks, first), rest)
    ensures SelectionRun(tasks, [first] + rest)
  {
    assert ([first] + rest)[1..] == rest;
  }

  lemma RestInside(tasks: Tasks, s: set<TaskId>, order: seq<TaskId>)
    requires SelectionRun(tasks, order) && Within(order, s) && order != []
    ensures Within(order[1..], s - {order[0]})
  {
    var rest := order[1..];
    SelectedWerePending(Completed(tasks, order[0]), rest);
    forall i | 0 <= i < |rest| ensures rest[i] in s - {order[0]} {
      assert rest[i] == order[i + 1] && rest[i] in rest;
    }
  }

  lemma FirstThenRest(s: set<TaskId>, first: TaskId, rest: seq<TaskId>)
    requires first in s && SelectsExactly(rest, s - {first}) && |rest| == |s - {first}|
    ensures SelectsExactly([first] + rest, s) && |[first] + rest| == |s|
  {
  }

  ghost predicate SelectsExactly(order: seq<TaskId>, s: set<TaskId>) {
    forall t :: t in order <==> t in s
  }

  ghost function Members(order: seq<TaskId>): set<TaskId> {
    set t | t in order
  }

  lemma {:induction false} SelectedWerePending(tasks: Tasks, order: seq<TaskId>)
    requires SelectionRun(tasks, order)
    ensures forall t | t in order :: t in tasks && tasks[t].status == Pending
    decreases |order|
  {
    if order != [] {
      SelectedWerePending(Completed(tasks, order[0]), order[1..]);
      forall t | t in order ensures t in tasks && tasks[t].status == Pending {
        if t != order[0] {
          assert t in order[1..];
        }
      }
    }
  }

  /** Whatever a task waited for at the start, dependency or child, is selected strictly before it. */
  lemma {:induction false} AwaitedFirst(tasks: Tasks, order: seq<TaskId>, j: nat, d: TaskId)
    requires SelectionRun(tasks, order) && j < |order| && Waits(tasks, order[j], d)
    ensures exists i :: 0 <= i < j && order[i] == d
    decreases |order|
  {
    ReadyExactly(tasks, order[0]);
    if j == 0 {
      assert false;
    } else if d == order[0] {
      assert order[0] == d;
    } else {
      WaitsAfter(tasks, order[0], order[j], d);
      AwaitedFirst(Completed(tasks, order[0]), order[1..], j - 1, d);
      var i :| 0 <= i < j - 1 && order[1..][i] == d;
      assert order[i + 1] == d;
    }
  }

  /** In particular no task is selected before a dependency of it that was neither complete nor satisfied. */
  lemma DependenciesFirst(tasks: Tasks, order: seq<TaskId>, j: nat, d: TaskId)
    requires SelectionRun(tasks, order) && j < |order|
    requires Edge(tasks, order[j], d) && !Resolved(tasks[d].status)
    ensures exists i :: 0 <= i < j && order[i] == d
  {
    AwaitedFirst(tasks, order, j, d);
  }

  function FirstIndex(order: seq<TaskId>, t: TaskId): (i: nat)
    requires t in order
    ensures i < |order| && order[i] == t && forall k | 0 <= k < i :: order[k] != t
  {
    if order[0] == t then 0 else 1 + FirstIndex(order[1..], t)
  }

  lemma AwaitedEarlier(tasks: Tasks, order: seq<TaskId>, a: TaskId, d: TaskId)
    requires SelectionRun(tasks, order) && a in order && Waits(tasks, a, d)
    ensures d in order && FirstIndex(order, d) < FirstIndex(order, a)
  {
    AwaitedFirst(tasks, order, FirstIndex(order, a), d);
  }

  /** What a run selects is a closed set without a cycle. */
  lemma SelectedIsClosed(tasks: Tasks, order: seq<TaskId>)
    requires SelectionRun(tasks, order)
    ensures Closed(tasks, Members(order)) && AcyclicOn(WaitsFor(tasks), Members(order))
  {
    SelectedWerePending(tasks, order);
    forall t, d | t in Members(order) && Waits(tasks, t, d) ensures d in Members(order) {
      AwaitedEarlier(tasks, order, t, d);
    }
    SelectedIsAcyclic(tasks, order);
  }

  lemma SelectedIsAcyclic(tasks: Tasks, order: seq<TaskId>)
    requires SelectionRun(tasks, order)
    ensures AcyclicOn(WaitsFor(tasks), Members(order))
  {
    var rank := map t | t in Members(order) :: FirstIndex(order, t);
    forall a, b | a in rank && b in rank && WaitsFor(tasks)(a, b) ensures rank[b] < rank[a] {
      AwaitedEarlier(tasks, order, a, b);
    }
    forall w | Within(w, Members(order)) ensures !Cycle(WaitsFor(tasks), w) {
      if Cycle(WaitsFor(tasks), w) {
        assert Within(w, rank.Keys);
        WalkDescends(WaitsFor(tasks), w, rank);
      }
    }
  }

  /** Exactly which tasks selection can complete, in any store: those in a closed set without a cycle. */
  lemma CompletableExactly(tasks: Tasks, t: TaskId)
    ensures (exists order :: SelectionRun(tasks, order) && t in order)
      <==> (exists s :: t in s && Closed(tasks, s) && AcyclicOn(WaitsFor(tasks), s))
  {
    if exists order :: SelectionRun(tasks, order) && t in order {
      var order :| SelectionRun(tasks, order) && t in order;
      SelectedIsClosed(tasks, order);
      assert t in Members(order);
    }
    if exists s :: t in s && Closed(tasks, s) && AcyclicOn(WaitsFor(tasks), s) {
      var s :| t in s && Closed(tasks, s) && AcyclicOn(WaitsFor(tasks), s);
      var order := ClosedSetCompletes(tasks, s);
      assert t in order;
    }
  }

  ghost function AllPending(tasks: Tasks): set<TaskId> {
    set t | t in tasks && tasks[t].status == Pending
  }

  /** Selection can complete all that is pending exactly when pending tasks wait only for each other, in no cycle. */
  lemma AllPendingComplete(tasks: Tasks)
    ensures (exists order :: SelectionRun(tasks, order) && SelectsExactly(order, AllPending(tasks)))
      <==> Closed(tasks, AllPending(tasks)) && AcyclicOn(WaitsFor(tasks), AllPending(tasks))
  {
    if order :| SelectionRun(tasks, order) && SelectsExactly(order, AllPending(tasks)) {
      SelectedIsClosed(tasks, order);
      assert Members(order) == AllPending(tasks);
    }
    if Closed(tasks, AllPending(tasks)) && AcyclicOn(WaitsFor(tasks), AllPending(tasks)) {
      var order := ClosedSetCompletes(tasks, AllPending(tasks));
      assert SelectsExactly(order, AllPending(tasks));
    }
  }

  /** Where no member has active children, an acyclic dependency graph is enough. */
  lemma DependenciesSuffice(tasks: Tasks, s: set<TaskId>)
    requires Acyclic(Depends(tasks)) && forall t | t in s && t in tasks :: !HasActiveChildren(tasks, tasks[t])
    ensures AcyclicOn(WaitsFor(tasks), s)
  {
    forall w | Within(w, s) ensures !Cycle(WaitsFor(tasks), w) {
      if Cycle(WaitsFor(tasks), w) {
        forall i | 0 <= i < |w| - 1 ensures Depends(tasks)(w[i], w[i + 1]) {
          assert WaitsFor(tasks)(w[i], w[i + 1]) && w[i] in s;
          NoChildNoWait(tasks, w[i], w[i + 1]);
        }
        assert Cycle(Depends(tasks), w);
      }
    }
  }

  lemma NoChildNoWait(tasks: Tasks, a: TaskId, d: TaskId)
    requires Waits(tasks, a, d) && !HasActiveChildren(tasks, tasks[a])
    ensures Edge(tasks, a, d)
  {
    forall i | 0 <= i < |tasks[a].activeChildren| ensures tasks[a].activeChildren[i] != d || !Active(tasks[d].status) {
    }
  }

  /** A task from which a chain of waiting leads to one that is not pending is never selected. */
  lemma {:induction false} StuckDownstream(tasks: Tasks, order: seq<TaskId>, w: seq<TaskId>)
    requires SelectionRun(tasks, order) && Walk(WaitsFor(tasks), w) && w != []
    requires w[|w| - 1] in tasks ==> tasks[w[|w| - 1]].status != Pending
    ensures w[0] !in order
    decreases |w|
  {
    SelectedWerePending(tasks, order);
    if w[0] in order && |w| > 1 {
      assert WaitsFor(tasks)(w[0], w[1]);
      AwaitedEarlier(tasks, order, w[0], w[1]);
      forall i | 0 <= i < |w[1..]| - 1 ensures WaitsFor(tasks)(w[1..][i], w[1..][i + 1]) {
        assert WaitsFor(tasks)(w[i + 1], w[i + 2]);
      }
      StuckDownstream(tasks, order, w[1..]);
    }
  }

  /** In particular a superseded dependency, a closed duplicate say, never lets its dependents go. */
  lemma SupersededNeverUnblocks(tasks: Tasks, order: seq<TaskId>, t: TaskId, d: TaskId)
    requires SelectionRun(tasks, order) && Edge(tasks, t, d) && tasks[d].status == Superseded
    ensures t !in order
  {
    StuckDownstream(tasks, order, [t, d]);
  }

  // ---------- cycles ----------

  /** A run in which selection is the only way to become resolved; anything else may change or be added. */
  datatype Step = Select(t: TaskId) | Write(t: TaskId, task: Task)

  ghost predicate Allowed(tasks: Tasks, step: Step) {
    match step
    case Select(t) => t in tasks && tasks[t].status == Pending && Ready(tasks, t)
    case Write(t, task) => !Resolved(task.status) && (t in tasks ==> task.dependencies == tasks[t].dependencies)
  }

  function After(tasks: Tasks, step: Step): Tasks
  {
    match step
    case Select(t) => if t in tasks then Completed(tasks, t) else tasks
    case Write(t, task) => tasks[t := task]
  }

  ghost predicate ValidRun(tasks: Tasks, steps: seq<Step>)
    decreases |steps|
  {
    steps == [] || (Allowed(tasks, steps[0]) && ValidRun(After(tasks, steps[0]), steps[1..]))
  }

  function RunEnd(tasks: Tasks, steps: seq<Step>): Tasks
    decreases |steps|
  {
    if steps == [] then tasks else RunEnd(After(tasks, steps[0]), steps[1..])
  }

  function Selections(order: seq<TaskId>): seq<Step> {
    seq(|order|, i requires 0 <= i < |order| => Select(order[i]))
  }

  /** Selecting tasks in their turn is such a run; it completes exactly these and leaves everything else as it was. */
  lemma {:induction false} SelectionsRun(tasks: Tasks, order: seq<TaskId>)
    requires SelectionRun(tasks, order)
    ensures ValidRun(tasks, Selections(order))
    ensures var end := RunEnd(tasks, Selections(order));
      && end.Keys == tasks.Keys
      && forall t | t in tasks :: end[t] == if t in order then tasks[t].(status := Complete) else tasks[t]
    decreases |order|
  {
    if order != [] {
      var next := Completed(tasks, order[0]);
      assert Selections(order)[1..] == Selections(order[1..]);
      assert After(tasks, Selections(order)[0]) == next;
      SelectionsRun(next, order[1..]);
      forall t ensures t in order <==> t == order[0] || t in order[1..] {
        assert order == [order[0]] + order[1..];
      }
    }
  }

  /** A cycle none of whose members is resolved. */
  ghost predicate OpenCycle(tasks: Tasks, w: seq<TaskId>) {
    Cycle(Depends(tasks), w) && forall i | 0 <= i < |w| :: w[i] in tasks && !Resolved(tasks[w[i]].status)
  }

  lemma CycleMemberNotReady(tasks: Tasks, w: seq<TaskId>, i: nat)
    requires OpenCycle(tasks, w) && i < |w|
    ensures !Ready(tasks, w[i])
  {
    var k := if i == |w| - 1 then 0 else i;
    assert Depends(tasks)(w[k], w[k + 1]);
    var j :| 0 <= j < |tasks[w[k]].dependencies| && tasks[w[k]].dependencies[j] == w[k + 1];
    assert HasUnresolvedDependencies(tasks, tasks[w[k]]);
  }

  /** In every such run an open cycle stays open, so none of its members is ever ready. */
  lemma {:induction false} CycleNeverReady(tasks: Tasks, w: seq<TaskId>, steps: seq<Step>)
    requires OpenCycle(tasks, w) && ValidRun(tasks, steps)
    ensures OpenCycle(RunEnd(tasks, steps), w)
    ensures forall i | 0 <= i < |w| :: !Ready(RunEnd(tasks, steps), w[i])
    decreases |steps|
  {
    if steps == [] {
      forall i | 0 <= i < |w| ensures !Ready(tasks, w[i]) {
        CycleMemberNotReady(tasks, w, i);
      }
    } else {
      var next := After(tasks, steps[0]);
      forall i | 0 <= i < |w| ensures w[i] in next && !Resolved(next[w[i]].status) {
        CycleMemberNotReady(tasks, w, i);
      }
      forall i | 0 <= i < |w| - 1 ensures Depends(next)(w[i], w[i + 1]) {
        assert Depends(tasks)(w[i], w[i + 1]);
      }
      CycleNeverReady(next, w, steps[1..]);
    }
  }
}
