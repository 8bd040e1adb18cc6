/**
 Turning follow-up proposals into tasks (`_materialize_followup_tasks` in
 astrata/loop0/runner.py): names used by one bundle become dependency edges inside it.
 */
module FollowUps {
  import opened Graphs
  import opened Options
  import opened Sequences
  import opened TaskGraph

  /** The trimmed title, the trimmed hint (empty when absent) and the names it depends on. */
  datatype Proposal = Proposal(title: string, hint: string, dependsOn: seq<string>)

  /** A name defined later replaces the earlier meaning, and a title goes after its own hint. */
  function Named(names: map<string, TaskId>, proposal: Proposal, id: TaskId): map<string, TaskId> {
    (if proposal.hint != "" then names[proposal.hint := id] else names)[proposal.title := id]
  }

  /** The names the bundle defines so far; a later use of a name replaces an earlier one. */
  function Names(proposals: seq<Proposal>, ids: seq<TaskId>): (names: map<string, TaskId>)
    requires |proposals| == |ids|
    ensures forall n | n in names :: names[n] in ids
  {
    if proposals == [] then map[]
    else
      var n := |proposals| - 1;
      Named(Names(proposals[..n], ids[..n]), proposals[n], ids[n])
  }

  /** The ids that the named dependencies stand for; unknown names and itself are dropped. */
  function Dependencies(dependsOn: seq<string>, names: map<string, TaskId>, self: TaskId): seq<TaskId> {
    if dependsOn == [] then []
    else
      var last := dependsOn[|dependsOn| - 1];
      Dependencies(dependsOn[..|dependsOn| - 1], names, self)
      + (if last in names && names[last] != self then [names[last]] else [])
  }

  /** The tasks a bundle adds, given the names it defines. */
  function Bundle(proposals: seq<Proposal>, ids: seq<TaskId>, names: map<string, TaskId>): Tasks
    requires |proposals| == |ids|
  {
    if proposals == [] then map[]
    else
      var n := |ids| - 1;
      Bundle(proposals[..n], ids[..n], names)
        [ids[n] := Task(Pending, Dependencies(proposals[n].dependsOn, names, ids[n]), [])]
  }

  /** The first pass writes the same tasks without dependencies. */
  function Bare(ids: seq<TaskId>): Tasks {
    map t | t in ids :: Task(Pending, [], [])
  }

  /** A proposal defines its title and, when it gives one, its hint. */
  predicate Defines(p: Proposal, name: string) {
    p.title == name || (p.hint != "" && p.hint == name)
  }

  lemma NamedExactly(names: map<string, TaskId>, p: Proposal, id: TaskId, name: string)
    ensures Defines(p, name) ==> name in Named(names, p, id) && Named(names, p, id)[name] == id
    ensures !Defines(p, name) ==>
      (name in Named(names, p, id) <==> name in names) && (name in names ==> Named(names, p, id)[name] == names[name])
  {
  }

  /** A name stands for the task of the last proposal that defines it. */
  lemma {:induction false} NameOfLast(proposals: seq<Proposal>, ids: seq<TaskId>, name: string, k: nat)
    requires |proposals| == |ids| && k < |ids| && Defines(proposals[k], name)
    requires forall j | k < j < |ids| :: !Defines(proposals[j], name)
    ensures name in Names(proposals, ids) && Names(proposals, ids)[name] == ids[k]
  {
    var n := |ids| - 1;
    NamedExactly(Names(proposals[..n], ids[..n]), proposals[n], ids[n], name);
    if k < n {
      NameOfLast(proposals[..n], ids[..n], name, k);
    }
  }

  /** A name that no proposal defines stands for nothing. */
  lemma {:induction false} NameOfNone(proposals: seq<Proposal>, ids: seq<TaskId>, name: string)
    requires |proposals| == |ids| && forall j | 0 <= j < |ids| :: !Defines(proposals[j], name)
    ensures name !in Names(proposals, ids)
  {
    if proposals != [] {
      var n := |ids| - 1;
      NamedExactly(Names(proposals[..n], ids[..n]), proposals[n], ids[n], name);
      NameOfNone(proposals[..n], ids[..n], name);
    }
  }

  lemma {:induction false} DependenciesInside(dependsOn: seq<string>, names: map<string, TaskId>, self: TaskId)
    ensures forall d | d in Dependencies(dependsOn, names, self) ::
      d != self && exists n :: n in dependsOn && n in names && names[n] == d
    ensures forall n | n in dependsOn && n in names && names[n] != self :: names[n] in Dependencies(dependsOn, names, self)
  {
    if dependsOn != [] {
      DependenciesInside(dependsOn[..|dependsOn| - 1], names, self);
      forall d | d in Dependencies(dependsOn, names, self)
        ensures d != self && exists n :: n in dependsOn && n in names && names[n] == d
      {
        var init := dependsOn[..|dependsOn| - 1];
        if d in Dependencies(init, names, self) {
          var n :| n in init && n in names && names[n] == d;
          assert n in dependsOn;
        }
      }
    }
  }

  lemma {:induction false} BundleTasks(proposals: seq<Proposal>, ids: seq<TaskId>, names: map<string, TaskId>)
    requires |proposals| == |ids| && Distinct(ids)
    ensures forall t :: t in Bundle(proposals, ids, names) <==> t in ids
    ensures forall i | 0 <= i < |ids| ::
      Bundle(proposals, ids, names)[ids[i]] == Task(Pending, Dependencies(proposals[i].dependsOn, names, ids[i]), [])
  {
    if ids != [] {
      var n := |ids| - 1;
      BundleTasks(proposals[..n], ids[..n], names);
      forall i | 0 <= i < |ids|
        ensures Bundle(proposals, ids, names)[ids[i]] == Task(Pending, Dependencies(proposals[i].dependsOn, names, ids[i]), [])
      {
        if i < n {
          assert ids[..n][i] == ids[i] && proposals[..n][i] == proposals[i];
        }
      }
    }
  }

  /** Every dependency edge of a bundle goes from one of its tasks to a different one of its tasks. */
  lemma EdgesInsideBundle(proposals: seq<Proposal>, ids: seq<TaskId>, t: TaskId, d: TaskId)
    requires |proposals| == |ids| && Distinct(ids)
    requires var bundle := Bundle(proposals, ids, Names(proposals, ids)); t in bundle && d in bundle[t].dependencies
    ensures d in Bundle(proposals, ids, Names(proposals, ids)) && d != t
  {
    var names := Names(proposals, ids);
    BundleTasks(proposals, ids, names);
    var i :| 0 <= i < |ids| && ids[i] == t;
    DependenciesInside(proposals[i].dependsOn, names, t);
  }

  /** Ids that no stored task has or mentions: freshly minted ones. */
  ghost predicate Unmentioned(tasks: Tasks, ids: seq<TaskId>) {
    && (forall t | t in ids :: t !in tasks)
    && (forall t, d | t in tasks && d in ids :: d !in tasks[t].dependencies)
  }

  // ---------- cycles among the proposals ----------

  /** This proposal is the last one that has the name. */
  predicate LastDefines(proposals: seq<Proposal>, name: string, j: nat) {
    && j < |proposals| && Defines(proposals[j], name)
    && forall m | j < m < |proposals| :: !Defines(proposals[m], name)
  }

  /** The first proposal depends on a name that the second, a different one, is the last to have. */
  predicate NeedsOther(proposals: seq<Proposal>, i: nat, j: nat) {
    && i < |proposals| && j < |proposals| && i != j
    && exists k :: 0 <= k < |proposals[i].dependsOn| && LastDefines(proposals, proposals[i].dependsOn[k], j)
  }

  function Needs(proposals: seq<Proposal>): Relation {
    (i: nat, j: nat) => NeedsOther(proposals, i, j)
  }

  lemma {:induction false} LastDefiner(proposals: seq<Proposal>, name: string) returns (j: nat)
    requires exists k :: 0 <= k < |proposals| && Defines(proposals[k], name)
    ensures LastDefines(proposals, name, j)
  {
    var n := |proposals| - 1;
    if Defines(proposals[n], name) {
      j := n;
    } else {
      var k :| 0 <= k < |proposals| && Defines(proposals[k], name);
      assert Defines(proposals[..n][k], name);
      j := LastDefiner(proposals[..n], name);
    }
  }

  /** What a name of the bundle stands for, and who has it last. */
  lemma NamesByLast(proposals: seq<Proposal>, ids: seq<TaskId>, name: string, j: nat)
    requires |proposals| == |ids| && Distinct(ids) && j < |ids|
    ensures name in Names(proposals, ids) && Names(proposals, ids)[name] == ids[j] <==> LastDefines(proposals, name, j)
  {
    if LastDefines(proposals, name, j) {
      NameOfLast(proposals, ids, name, j);
    }
    if name in Names(proposals, ids) && Names(proposals, ids)[name] == ids[j] {
      if forall k | 0 <= k < |ids| :: !Defines(proposals[k], name) {
        NameOfNone(proposals, ids, name);
      }
      var m := LastDefiner(proposals, name);
      NameOfLast(proposals, ids, name, m);
    }
  }

  /** The dependency edges of a bundle are exactly the needs of its proposals. */
  lemma EdgesExactly(proposals: seq<Proposal>, ids: seq<TaskId>, i: nat, j: nat)
    requires |proposals| == |ids| && Distinct(ids) && i < |ids| && j < |ids|
    ensures Edge(Bundle(proposals, ids, Names(proposals, ids)), ids[i], ids[j]) <==> NeedsOther(proposals, i, j)
  {
    var names := Names(proposals, ids);
    BundleTasks(proposals, ids, names);
    DependenciesInside(proposals[i].dependsOn, names, ids[i]);
    if Edge(Bundle(proposals, ids, names), ids[i], ids[j]) {
      var name :| name in proposals[i].dependsOn && name in names && names[name] == ids[j];
      NamesByLast(proposals, ids, name, j);
      var k :| 0 <= k < |proposals[i].dependsOn| && proposals[i].dependsOn[k] == name;
      assert LastDefines(proposals, proposals[i].dependsOn[k], j);
    }
    if NeedsOther(proposals, i, j) {
      var k :| 0 <= k < |proposals[i].dependsOn| && LastDefines(proposals, proposals[i].dependsOn[k], j);
      NamesByLast(proposals, ids, proposals[i].dependsOn[k], j);
    }
  }

  lemma NeedsCycleInBundle(proposals: seq<Proposal>, ids: seq<TaskId>, w: seq<nat>)
    requires |proposals| == |ids| && Distinct(ids) && Cycle(Needs(proposals), w)
    ensures !Acyclic(Depends(Bundle(proposals, ids, Names(proposals, ids))))
  {
    var r, q := Needs(proposals), Depends(Bundle(proposals, ids, Names(proposals, ids)));
    forall i | 0 <= i < |w| ensures w[i] < |ids| {
      assert if i < |w| - 1 then r(w[i], w[i + 1]) else r(w[i - 1], w[i]);
    }
    var v := seq(|w|, i requires 0 <= i < |w| => ids[w[i]]);
    forall i | 0 <= i < |w| - 1 && r(w[i], w[i + 1]) ensures q(v[i], v[i + 1]) {
      EdgesExactly(proposals, ids, w[i], w[i + 1]);
    }
    CycleMaps(r, q, w, v);
  }

  lemma BundleCycleInNeeds(proposals: seq<Proposal>, ids: seq<TaskId>, w: seq<TaskId>)
    requires |proposals| == |ids| && Distinct(ids)
    requires Cycle(Depends(Bundle(proposals, ids, Names(proposals, ids))), w)
    ensures !Acyclic(Needs(proposals))
  {
    var r, q := Depends(Bundle(proposals, ids, Names(proposals, ids))), Needs(proposals);
    BundleTasks(proposals, ids, Names(proposals, ids));
    forall i | 0 <= i < |w| ensures w[i] in ids {
      assert if i < |w| - 1 then r(w[i], w[i + 1]) else r(w[i - 1], w[i]);
    }
    var v := seq(|w|, i requires 0 <= i < |w| => FirstIndex(ids, w[i]));
    forall i | 0 <= i < |w| - 1 && r(w[i], w[i + 1]) ensures q(v[i], v[i + 1]) {
      EdgesExactly(proposals, ids, v[i], v[i + 1]);
    }
    CycleMaps(r, q, w, v);
  }

  /** A bundle is acyclic exactly when the needs of its proposals are, whatever ids were minted. */
  lemma BundleAcyclicExactly(proposals: seq<Proposal>, ids: seq<TaskId>)
    requires |proposals| == |ids| && Distinct(ids)
    ensures Acyclic(Depends(Bundle(proposals, ids, Names(proposals, ids)))) <==> Acyclic(Needs(proposals))
  {
    if w :| Cycle(Needs(proposals), w) {
      NeedsCycleInBundle(proposals, ids, w);
    }
    if w :| Cycle(Depends(Bundle(proposals, ids, Names(proposals, ids))), w) {
      BundleCycleInNeeds(proposals, ids, w);
    }
  }

  // ---------- a bundle in a store ----------

  /** Along a walk of the extended graph one never crosses between the old tasks and the bundle. */
  lemma {:induction false} WalkStays(tasks: Tasks, bundle: Tasks, ids: seq<TaskId>, w: seq<TaskId>)
    requires Unmentioned(tasks, ids) && (forall t :: t in bundle <==> t in ids)
    requires forall t, d | t in bundle && d in bundle[t].dependencies :: d in bundle
    requires Walk(Depends(tasks + bundle), w) && |w| >= 2
    ensures Walk(Depends(if w[0] in bundle then bundle else tasks), w)
    decreases |w|
  {
    assert Depends(tasks + bundle)(w[0], w[1]);
    if |w| > 2 {
      forall i | 0 <= i < |w[1..]| - 1 ensures Depends(tasks + bundle)(w[1..][i], w[1..][i + 1]) {
        assert Depends(tasks + bundle)(w[i + 1], w[i + 2]);
      }
      WalkStays(tasks, bundle, ids, w[1..]);
      var side := if w[0] in bundle then bundle else tasks;
      forall i | 0 <= i < |w| - 1 ensures Depends(side)(w[i], w[i + 1]) {
        if i > 0 {
          assert Depends(side)(w[1..][i - 1], w[1..][i]);
        }
      }
    }
  }

  lemma ExtendedCycle(tasks: Tasks, bundle: Tasks, ids: seq<TaskId>, w: seq<TaskId>)
    requires Unmentioned(tasks, ids) && (forall t :: t in bundle <==> t in ids)
    requires forall t, d | t in bundle && d in bundle[t].dependencies :: d in bundle
    requires Cycle(Depends(tasks + bundle), w)
    ensures Cycle(Depends(bundle), w) || Cycle(Depends(tasks), w)
  {
    WalkStays(tasks, bundle, ids, w);
  }

  lemma CycleKept(tasks: Tasks, bundle: Tasks, w: seq<TaskId>)
    requires Cycle(Depends(bundle), w)
    ensures Cycle(Depends(tasks + bundle), w)
  {
    CycleMaps(Depends(bundle), Depends(tasks + bundle), w, w);
  }

  lemma BundleShape(proposals: seq<Proposal>, ids: seq<TaskId>)
    requires |proposals| == |ids| && Distinct(ids)
    ensures var bundle := Bundle(proposals, ids, Names(proposals, ids));
      && (forall t :: t in bundle <==> t in ids)
      && (forall t | t in bundle :: bundle[t].status == Pending && bundle[t].activeChildren == [])
      && (forall t, d | t in bundle && d in bundle[t].dependencies :: d in bundle)
  {
    var bundle := Bundle(proposals, ids, Names(proposals, ids));
    BundleTasks(proposals, ids, Names(proposals, ids));
    forall t | t in bundle ensures bundle[t].status == Pending && bundle[t].activeChildren == [] {
      var i :| 0 <= i < |ids| && ids[i] == t;
      assert bundle[ids[i]].activeChildren == [];
    }
    forall t, d | t in bundle && d in bundle[t].dependencies ensures d in bundle {
      EdgesInsideBundle(proposals, ids, t, d);
    }
  }

  /** Adding a bundle keeps the dependency graph acyclic exactly when the needs of its proposals are acyclic. */
  lemma BundleKeepsAcyclicExactly(tasks: Tasks, proposals: seq<Proposal>, ids: seq<TaskId>)
    requires |proposals| == |ids| && Distinct(ids) && Unmentioned(tasks, ids) && Acyclic(Depends(tasks))
    ensures Acyclic(Depends(tasks + Bundle(proposals, ids, Names(proposals, ids)))) <==> Acyclic(Needs(proposals))
  {
    var bundle := Bundle(proposals, ids, Names(proposals, ids));
    BundleAcyclicExactly(proposals, ids);
    BundleShape(proposals, ids);
    if w :| Cycle(Depends(tasks + bundle), w) {
      ExtendedCycle(tasks, bundle, ids, w);
    }
    if w :| Cycle(Depends(bundle), w) {
      CycleKept(tasks, bundle, w);
    }
  }

  /** Inside any store the tasks of a bundle wait exactly along the bundle's own edges. */
  lemma BundleWaits(tasks: Tasks, proposals: seq<Proposal>, ids: seq<TaskId>, t: TaskId, d: TaskId)
    requires |proposals| == |ids| && Distinct(ids) && t in ids
    ensures var bundle := Bundle(proposals, ids, Names(proposals, ids));
      && (Waits(tasks + bundle, t, d) <==> Edge(bundle, t, d))
      && (Edge(bundle, t, d) ==> d in ids)
  {
    var bundle := Bundle(proposals, ids, Names(proposals, ids));
    BundleShape(proposals, ids);
    assert (tasks + bundle)[t] == bundle[t];
  }

  lemma BundleIsClosed(tasks: Tasks, proposals: seq<Proposal>, ids: seq<TaskId>)
    requires |proposals| == |ids| && Distinct(ids)
    ensures Closed(tasks + Bundle(proposals, ids, Names(proposals, ids)), Members(ids))
  {
    var bundle := Bundle(proposals, ids, Names(proposals, ids));
    BundleShape(proposals, ids);
    forall t, d | t in Members(ids) && Waits(tasks + bundle, t, d) ensures d in Members(ids) {
      BundleWaits(tasks, proposals, ids, t, d);
    }
  }

  lemma WaitingCycleExactly(tasks: Tasks, proposals: seq<Proposal>, ids: seq<TaskId>, w: seq<TaskId>)
    requires |proposals| == |ids| && Distinct(ids) && Within(w, Members(ids))
    ensures var bundle := Bundle(proposals, ids, Names(proposals, ids));
      Cycle(WaitsFor(tasks + bundle), w) <==> Cycle(Depends(bundle), w)
  {
    var bundle := Bundle(proposals, ids, Names(proposals, ids));
    forall i | 0 <= i < |w| - 1 ensures WaitsFor(tasks + bundle)(w[i], w[i + 1]) <==> Depends(bundle)(w[i], w[i + 1]) {
      assert w[i] in Members(ids);
      BundleWaits(tasks, proposals, ids, w[i], w[i + 1]);
    }
    if Cycle(WaitsFor(tasks + bundle), w) {
      CycleMaps(WaitsFor(tasks + bundle), Depends(bundle), w, w);
    }
    if Cycle(Depends(bundle), w) {
      CycleMaps(Depends(bundle), WaitsFor(tasks + bundle), w, w);
    }
  }

  ghost predicate SelectsAll(ids: seq<TaskId>, order: seq<TaskId>) {
    forall t | t in ids :: t in order
  }

  /**
   Exactly when follow-ups can be completed: from any store, selection can complete all tasks of a bundle,
   and then these alone, exactly when the needs of the proposals have no cycle.
   */
  lemma FollowUpsCompletableExactly(tasks: Tasks, proposals: seq<Proposal>, ids: seq<TaskId>)
    requires |proposals| == |ids| && Distinct(ids)
    ensures var store := tasks + Bundle(proposals, ids, Names(proposals, ids));
      && ((exists order :: SelectionRun(store, order) && SelectsAll(ids, order)) <==> Acyclic(Needs(proposals)))
      && ((exists order :: SelectionRun(store, order) && SelectsExactly(order, Members(ids))) <==> Acyclic(Needs(proposals)))
  {
    var store := tasks + Bundle(proposals, ids, Names(proposals, ids));
    if Acyclic(Needs(proposals)) {
      var order := AcyclicBundleCompletes(tasks, proposals, ids);
      assert SelectsAll(ids, order);
    }
    forall order | SelectionRun(store, order) && SelectsExactly(order, Members(ids)) ensures SelectsAll(ids, order) {
    }
    if order :| SelectionRun(store, order) && SelectsAll(ids, order) {
      CompletedBundleAcyclic(tasks, proposals, ids, order);
    }
  }

  lemma AcyclicBundleCompletes(tasks: Tasks, proposals: seq<Proposal>, ids: seq<TaskId>) returns (order: seq<TaskId>)
    requires |proposals| == |ids| && Distinct(ids) && Acyclic(Needs(proposals))
    ensures SelectionRun(tasks + Bundle(proposals, ids, Names(proposals, ids)), order) && SelectsExactly(order, Members(ids))
  {
    var bundle := Bundle(proposals, ids, Names(proposals, ids));
    BundleAcyclicExactly(proposals, ids);
    BundleIsClosed(tasks, proposals, ids);
    forall w | Within(w, Members(ids)) ensures !Cycle(WaitsFor(tasks + bundle), w) {
      WaitingCycleExactly(tasks, proposals, ids, w);
    }
    order := ClosedSetCompletes(tasks + bundle, Members(ids));
  }

  lemma CompletedBundleAcyclic(tasks: Tasks, proposals: seq<Proposal>, ids: seq<TaskId>, order: seq<TaskId>)
    requires |proposals| == |ids| && Distinct(ids)
    requires SelectionRun(tasks + Bundle(proposals, ids, Names(proposals, ids)), order) && SelectsAll(ids, order)
    ensures Acyclic(Needs(proposals))
  {
    var bundle := Bundle(proposals, ids, Names(proposals, ids));
    BundleAcyclicExactly(proposals, ids);
    SelectedIsClosed(tasks + bundle, order);
    forall w ensures !Cycle(Depends(bundle), w) {
      if Cycle(Depends(bundle), w) {
        CycleInsideBundle(proposals, ids, w);
        WaitingCycleExactly(tasks, proposals, ids, w);
        assert Within(w, Members(order));
      }
    }
  }

  lemma CycleInsideBundle(proposals: seq<Proposal>, ids: seq<TaskId>, w: seq<TaskId>)
    requires |proposals| == |ids| && Distinct(ids)
    requires Cycle(Depends(Bundle(proposals, ids, Names(proposals, ids))), w)
    ensures Within(w, Members(ids))
  {
    var r := Depends(Bundle(proposals, ids, Names(proposals, ids)));
    BundleTasks(proposals, ids, Names(proposals, ids));
    forall i | 0 <= i < |w| ensures w[i] in Members(ids) {
      assert if i < |w| - 1 then r(w[i], w[i + 1]) else r(w[i - 1], w[i]);
    }
  }

  /** Each of the two proposals depends on exactly the other, by title. */
  predicate NameEachOther(p: Proposal, q: Proposal) {
    p.title != q.title && p.hint == q.hint == "" && p.dependsOn == [q.title] && q.dependsOn == [p.title]
  }

  lemma MutualEdges(p: Proposal, q: Proposal, a: TaskId, b: TaskId)
    requires NameEachOther(p, q) && a != b
    ensures var bundle := Bundle([p, q], [a, b], Names([p, q], [a, b])); Edge(bundle, a, b) && Edge(bundle, b, a)
  {
    var ps, ids := [p, q], [a, b];
    var names := Names(ps, ids);
    assert ps[..1] == [p] && ids[..1] == [a] && [p][..0] == [] && [a][..0] == [];
    assert Names([p], [a]) == map[p.title := a];
    assert names[p.title] == a && names[q.title] == b;
    BundleTasks(ps, ids, names);
    DependenciesInside(p.dependsOn, names, a);
    DependenciesInside(q.dependsOn, names, b);
    assert q.title in p.dependsOn && p.title in q.dependsOn;
    var bundle := Bundle(ps, ids, names);
    assert ids[0] == a && ids[1] == b && bundle[ids[0]] == bundle[a] && bundle[ids[1]] == bundle[b];
  }

  /** Nothing stops a bundle from being cyclic: in any store two proposals that name each other never become ready. */
  lemma MutualProposalsDeadlock(tasks: Tasks, p: Proposal, q: Proposal, a: TaskId, b: TaskId, steps: seq<Step>)
    requires NameEachOther(p, q) && a != b
    requires ValidRun(tasks + Bundle([p, q], [a, b], Names([p, q], [a, b])), steps)
    ensures var end := RunEnd(tasks + Bundle([p, q], [a, b], Names([p, q], [a, b])), steps);
      a in end && b in end && !Ready(end, a) && !Ready(end, b)
  {
    var bundle := Bundle([p, q], [a, b], Names([p, q], [a, b]));
    MutualEdges(p, q, a, b);
    BundleTasks([p, q], [a, b], Names([p, q], [a, b]));
    assert bundle[[a, b][0]].status == Pending && bundle[[a, b][1]].status == Pending;
    var w := [a, b, a];
    assert Depends(tasks + bundle)(a, b) && Depends(tasks + bundle)(b, a);
    assert OpenCycle(tasks + bundle, w);
    CycleNeverReady(tasks + bundle, w, steps);
    assert w[0] == a && w[1] == b;
  }

  // ---------- the two passes over the store ----------

  /** What the first pass has written after some proposals. */
  ghost predicate BareStored(before: Tasks, done: seq<Proposal>, ids: seq<TaskId>, names: map<string, TaskId>, after: Tasks) {
    && |ids| == |done| && Distinct(ids) && Unmentioned(before, ids)
    && names == Names(done, ids)
    && after == before + Bare(ids)
  }

  lemma BareStoredOneMore(before: Tasks, done: seq<Proposal>, ids: seq<TaskId>, names: map<string, TaskId>, after: Tasks,
                          proposal: Proposal, id: TaskId)
    requires BareStored(before, done, ids, names, after) && Unmentioned(after, [id])
    ensures BareStored(before, done + [proposal], ids + [id], Named(names, proposal, id), after[id := Task(Pending, [], [])])
  {
    BareGrows(before, ids, id);
    NamesGrow(done, ids, proposal, id);
  }

  lemma NamesGrow(done: seq<Proposal>, ids: seq<TaskId>, proposal: Proposal, id: TaskId)
    requires |done| == |ids|
    ensures Names(done + [proposal], ids + [id]) == Named(Names(done, ids), proposal, id)
  {
    assert (done + [proposal])[..|done|] == done && (ids + [id])[..|ids|] == ids;
  }

  lemma BareGrows(before: Tasks, ids: seq<TaskId>, id: TaskId)
    requires Distinct(ids) && Unmentioned(before, ids) && Unmentioned(before + Bare(ids), [id])
    ensures Distinct(ids + [id]) && Unmentioned(before, ids + [id])
    ensures before + Bare(ids + [id]) == (before + Bare(ids))[id := Task(Pending, [], [])]
  {
    assert id in [id];
    forall t, d | t in before && d in ids + [id] ensures d !in before[t].dependencies {
      if d !in ids {
        assert d in [id];
        if t in ids {
          assert false;
        } else {
          assert (before + Bare(ids))[t] == before[t];
        }
      }
    }
  }

  lemma BundleOneMore(before: Tasks, proposals: seq<Proposal>, ids: seq<TaskId>, names: map<string, TaskId>, i: nat)
    requires |proposals| == |ids| && i < |ids|
    ensures (before + Bundle(proposals[..i], ids[..i], names))
              [ids[i] := Task(Pending, Dependencies(proposals[i].dependsOn, names, ids[i]), [])]
      == before + Bundle(proposals[..i + 1], ids[..i + 1], names)
  {
    assert proposals[..i + 1][..i] == proposals[..i] && ids[..i + 1][..i] == ids[..i];
  }

  /** The second pass rewrites every task of the first. */
  lemma BundleReplacesBare(before: Tasks, proposals: seq<Proposal>, ids: seq<TaskId>, names: map<string, TaskId>)
    requires |proposals| == |ids| && Distinct(ids)
    ensures before + Bare(ids) + Bundle(proposals, ids, names) == before + Bundle(proposals, ids, names)
  {
    BundleTasks(proposals, ids, names);
  }

  /** A spec that is not a dictionary is passed over. */
  function Proposed(specs: seq<Option<Proposal>>): seq<Proposal> {
    if specs == [] then []
    else
      var last := specs[|specs| - 1];
      Proposed(specs[..|specs| - 1]) + (if last.Some? then [last.value] else [])
  }

  function Prepared(specs: seq<Option<Proposal>>): seq<Proposal> {
    Proposed(specs[..if |specs| < 4 then |specs| else 4])
  }

  ghost function WellFormedPlaces(specs: seq<Option<Proposal>>, n: nat): set<nat> {
    set j: nat | j < n && j < |specs| && specs[j].Some?
  }

  /** How many well-formed specs stand before this place. */
  ghost function WellFormedBefore(specs: seq<Option<Proposal>>, n: nat): nat {
    |WellFormedPlaces(specs, n)|
  }

  lemma OneMoreSpec(specs: seq<Option<Proposal>>, i: nat)
    requires i < |specs|
    ensures WellFormedBefore(specs, i + 1) == WellFormedBefore(specs, i) + if specs[i].Some? then 1 else 0
  {
    assert WellFormedPlaces(specs, i + 1) == WellFormedPlaces(specs, i) + if specs[i].Some? then {i} else {};
  }

  lemma {:induction false} ProposedExactly(specs: seq<Option<Proposal>>, n: nat)
    requires n <= |specs|
    ensures |Proposed(specs[..n])| == WellFormedBefore(specs, n)
    ensures forall i: nat | i < n && specs[i].Some? ::
      WellFormedBefore(specs, i) < |Proposed(specs[..n])| && Proposed(specs[..n])[WellFormedBefore(specs, i)] == specs[i].value
  {
    if n > 0 {
      ProposedExactly(specs, n - 1);
      OneMoreSpec(specs, n - 1);
      assert specs[..n][..n - 1] == specs[..n - 1];
    } else {
      assert WellFormedPlaces(specs, 0) == {};
    }
  }

  /** Only the first four specs are looked at; each well-formed one of them stands at its place among the well-formed. */
  lemma PreparedExactly(specs: seq<Option<Proposal>>)
    ensures var n := if |specs| < 4 then |specs| else 4;
      && |Prepared(specs)| == WellFormedBefore(specs, n)
      && forall i: nat | i < n && specs[i].Some? ::
           WellFormedBefore(specs, i) < |Prepared(specs)| && Prepared(specs)[WellFormedBefore(specs, i)] == specs[i].value
  {
    ProposedExactly(specs, if |specs| < 4 then |specs| else 4);
  }

  class TaskStore {
    var tasks: Tasks

    constructor (stored: Tasks)
      ensures tasks == stored
    {
      tasks := stored;
    }

    /** A uuid that no stored task has or mentions. */
    method MintTaskId() returns (id: TaskId)
      ensures Unmentioned(tasks, [id])
    {
      var used := set t, d | t in tasks && d in tasks[t].dependencies :: d;
      id := 0;
      var rest := tasks.Keys + used;
      while rest != {}
        invariant rest <= tasks.Keys + used
        invariant forall x: TaskId | x in tasks.Keys + used :: x in rest || x < id
        decreases |rest|
      {
        var x: TaskId :| x in rest;
        if id <= x {
          id := x + 1;
        }
        rest := rest - {x};
      }
      forall t, d | t in tasks && d in tasks[t].dependencies ensures d != id {
        assert d in used;
      }
    }

    /** The first pass: store each task without dependencies and learn the bundle's names. */
    method StoreBare(prepared: seq<Proposal>) returns (ids: seq<TaskId>, names: map<string, TaskId>)
      modifies this
      ensures |ids| == |prepared| && Distinct(ids) && Unmentioned(old(tasks), ids)
      ensures names == Names(prepared, ids)
      ensures tasks == old(tasks) + Bare(ids)
    {
      ids, names := [], map[];
      for i := 0 to |prepared|
        invariant BareStored(old(tasks), prepared[..i], ids, names, tasks)
      {
        var id := MintTaskId();
        BareStoredOneMore(old(tasks), prepared[..i], ids, names, tasks, prepared[i], id);
        tasks := tasks[id := Task(Pending, [], [])];
        if prepared[i].hint != "" {
          names := names[prepared[i].hint := id];
        }
        names := names[prepared[i].title := id];
        ids := ids + [id];
        assert prepared[..i + 1] == prepared[..i] + [prepared[i]];
      }
      assert prepared[..|prepared|] == prepared;
    }

    method ResolveDependencies(dependsOn: seq<string>, names: map<string, TaskId>, self: TaskId) returns (d: seq<TaskId>)
      ensures d == Dependencies(dependsOn, names, self)
    {
      d := [];
      for j := 0 to |dependsOn|
        invariant d == Dependencies(dependsOn[..j], names, self)
      {
        assert dependsOn[..j + 1][..j] == dependsOn[..j];
        if dependsOn[j] in names && names[dependsOn[j]] != self {
          d := d + [names[dependsOn[j]]];
        }
      }
      assert dependsOn[..|dependsOn|] == dependsOn;
    }

    /** The second pass: add the edges, now that all names are known. */
    method AddEdges(prepared: seq<Proposal>, ids: seq<TaskId>, names: map<string, TaskId>)
      requires |prepared| == |ids|
      modifies this
      ensures tasks == old(tasks) + Bundle(prepared, ids, names)
    {
      for i := 0 to |prepared|
        invariant tasks == old(tasks) + Bundle(prepared[..i], ids[..i], names)
      {
        var dependencies := ResolveDependencies(prepared[i].dependsOn, names, ids[i]);
        BundleOneMore(old(tasks), prepared, ids, names, i);
        tasks := tasks[ids[i] := Task(Pending, dependencies, [])];
      }
      assert prepared[..|prepared|] == prepared && ids[..|prepared|] == ids;
    }

    /** The proposals among the first four specs, passing over what is malformed. */
    method PrepareProposals(specs: seq<Option<Proposal>>) returns (prepared: seq<Proposal>)
      ensures prepared == Prepared(specs)
    {
      var taken := specs[..if |specs| < 4 then |specs| else 4];
      prepared := [];
      for i := 0 to |taken|
        invariant prepared == Proposed(taken[..i])
      {
        assert taken[..i + 1][..i] == taken[..i];
        if taken[i].Some? {
          prepared := prepared + [taken[i].value];
        }
      }
      assert taken[..|taken|] == taken;
    }

    method MaterializeFollowupTasks(specs: seq<Option<Proposal>>) returns (ids: seq<TaskId>)
      modifies this
      ensures |ids| == |Prepared(specs)| && Distinct(ids) && Unmentioned(old(tasks), ids)
      ensures tasks == old(tasks) + Bundle(Prepared(specs), ids, Names(Prepared(specs), ids))
    {
      var prepared := PrepareProposals(specs);
      var names;
      ids, names := StoreBare(prepared);
      AddEdges(prepared, ids, names);
      BundleReplacesBare(old(tasks), prepared, ids, names);
    }
  }
}
