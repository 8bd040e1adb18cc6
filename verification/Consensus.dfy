/**
 Consensus of several worker lanes about one message task (astrata/loop0/runner.py):
 the lanes that are asked, the results that come back, and the decision.
 */
module Consensus {
  import opened Sequences
  import opened TaskGraph
  import opened Text

  // ---------- the lanes that are asked ----------

  /** Provider, CLI tool and model, trimmed and in lower case; empty when absent. */
  datatype Route = Route(provider: string, tool: string, model: string)

  /** `max(2, n)` */
  function Required(n: int): nat {
    if n < 2 then 2 else n
  }

  function Peer(tool: string, preferredModel: string): Route {
    Route("cli", tool, if tool != "gemini-cli" then "" else if preferredModel != "" then preferredModel else "gemini-2.5-flash")
  }

  const DEFAULT_TOOLS := ["kilocode", "gemini-cli", "claude-code"]

  function Proposed(primary: Route, tools: seq<string>, preferredModel: string): seq<Route> {
    if tools == [] then [primary]
    else
      var last := tools[|tools| - 1];
      Proposed(primary, tools[..|tools| - 1], preferredModel)
      + (if last == primary.tool then [] else [Peer(last, preferredModel)])
  }

  /** The first occurrence of each route that names a provider. */
  function FirstSeen(routes: seq<Route>): seq<Route> {
    if routes == [] then []
    else
      var last := routes[|routes| - 1];
      var before := FirstSeen(routes[..|routes| - 1]);
      if last.provider == "" || last in before then before else before + [last]
  }

  function Lanes(primary: Route, preferredTools: seq<string>, preferredModel: string, required: int): (r: seq<Route>)
    ensures |r| <= Required(required)
  {
    var all := FirstSeen(Proposed(primary, preferredTools + DEFAULT_TOOLS, preferredModel));
    if |all| < Required(required) then all else all[..Required(required)]
  }

  lemma {:induction false} FirstSeenExactly(routes: seq<Route>)
    ensures Distinct(FirstSeen(routes))
    ensures forall r :: r in FirstSeen(routes) <==> r in routes && r.provider != ""
  {
    if routes != [] {
      FirstSeenExactly(routes[..|routes| - 1]);
    }
  }

  lemma {:induction false} ProposedSize(primary: Route, tools: seq<string>, preferredModel: string)
    ensures |Proposed(primary, tools, preferredModel)| <= 1 + |tools|
  {
    if tools != [] {
      ProposedSize(primary, tools[..|tools| - 1], preferredModel);
    }
  }

  lemma {:induction false} FirstSeenSize(routes: seq<Route>)
    ensures |FirstSeen(routes)| <= |routes|
  {
    if routes != [] {
      FirstSeenSize(routes[..|routes| - 1]);
    }
  }

  /** The lanes are distinct, and there are never more of them than tools plus the primary route. */
  lemma LanesExactly(primary: Route, preferredTools: seq<string>, preferredModel: string, required: int)
    ensures Distinct(Lanes(primary, preferredTools, preferredModel, required))
    ensures |Lanes(primary, preferredTools, preferredModel, required)| <= 4 + |preferredTools|
  {
    var proposed := Proposed(primary, preferredTools + DEFAULT_TOOLS, preferredModel);
    FirstSeenExactly(proposed);
    FirstSeenSize(proposed);
    ProposedSize(primary, preferredTools + DEFAULT_TOOLS, preferredModel);
  }

  /** The lane that asks one command-line tool: only Gemini's is told a model, the preferred one if there is one. */
  predicate AsksTool(lane: Route, tool: string, preferredModel: string) {
    && lane.provider == "cli" && lane.tool == tool
    && lane.model == if tool != "gemini-cli" then "" else if preferredModel == "" then "gemini-2.5-flash" else preferredModel
  }

  lemma {:induction false} ProposedExactly(primary: Route, tools: seq<string>, preferredModel: string, r: Route)
    ensures r in Proposed(primary, tools, preferredModel)
      <==> r == primary || exists i :: 0 <= i < |tools| && tools[i] != primary.tool && AsksTool(r, tools[i], preferredModel)
  {
    if tools != [] {
      var n := |tools| - 1;
      ProposedExactly(primary, tools[..n], preferredModel, r);
      if i :| 0 <= i < n && tools[..n][i] != primary.tool && AsksTool(r, tools[..n][i], preferredModel) {
        assert AsksTool(r, tools[i], preferredModel);
      }
      if i :| 0 <= i < |tools| && tools[i] != primary.tool && AsksTool(r, tools[i], preferredModel) {
        assert i < n ==> tools[..n][i] == tools[i];
      }
    }
  }

  lemma {:induction false} FirstSeenGrows(routes: seq<Route>, more: seq<Route>)
    ensures FirstSeen(routes) <= FirstSeen(routes + more)
  {
    if more == [] {
      assert routes + more == routes;
    } else {
      var n := |more| - 1;
      FirstSeenGrows(routes, more[..n]);
      assert (routes + more)[..|routes + more| - 1] == routes + more[..n];
    }
  }

  lemma {:induction false} ProposedGrows(primary: Route, tools: seq<string>, more: seq<string>, preferredModel: string)
    ensures Proposed(primary, tools, preferredModel) <= Proposed(primary, tools + more, preferredModel)
  {
    if more == [] {
      assert tools + more == tools;
    } else {
      var n := |more| - 1;
      ProposedGrows(primary, tools, more[..n], preferredModel);
      assert (tools + more)[..|tools + more| - 1] == tools + more[..n];
    }
  }

  lemma ProposedPrefix(primary: Route, tools: seq<string>, i: nat, preferredModel: string)
    requires i <= |tools|
    ensures FirstSeen(Proposed(primary, tools[..i], preferredModel)) <= FirstSeen(Proposed(primary, tools, preferredModel))
  {
    assert tools[..i] + tools[i..] == tools;
    ProposedGrows(primary, tools[..i], tools[i..], preferredModel);
    var some, all := Proposed(primary, tools[..i], preferredModel), Proposed(primary, tools, preferredModel);
    assert some + all[|some|..] == all;
    FirstSeenGrows(some, all[|some|..]);
  }

  /** The primary route is the first lane, unless it names no provider; then it is none. */
  lemma PrimaryFirst(primary: Route, preferredTools: seq<string>, preferredModel: string, required: int)
    ensures var lanes := Lanes(primary, preferredTools, preferredModel, required);
      if primary.provider != "" then lanes != [] && lanes[0] == primary else primary !in lanes
  {
    var tools := preferredTools + DEFAULT_TOOLS;
    var proposed := Proposed(primary, tools, preferredModel);
    FirstSeenExactly(proposed);
    OnlyPrimary(primary, preferredModel);
    ProposedPrefix(primary, tools, 0, preferredModel);
    assert tools[..0] == [];
  }

  /** Every other lane asks one of the preferred or default tools, not the primary route's own. */
  lemma LanesAskTools(primary: Route, preferredTools: seq<string>, preferredModel: string, required: int, k: nat)
    requires k < |Lanes(primary, preferredTools, preferredModel, required)|
    ensures var lane := Lanes(primary, preferredTools, preferredModel, required)[k];
      var tools := preferredTools + ["kilocode", "gemini-cli", "claude-code"];
      lane == primary || exists i :: 0 <= i < |tools| && tools[i] != primary.tool && AsksTool(lane, tools[i], preferredModel)
  {
    var proposed := Proposed(primary, preferredTools + DEFAULT_TOOLS, preferredModel);
    var lane := Lanes(primary, preferredTools, preferredModel, required)[k];
    FirstSeenExactly(proposed);
    assert lane == FirstSeen(proposed)[k] && lane in FirstSeen(proposed);
    ProposedExactly(primary, preferredTools + DEFAULT_TOOLS, preferredModel, lane);
  }

  /** All tools that may be asked, in their order: the preferred ones first. */
  function AllTools(preferredTools: seq<string>): seq<string> {
    preferredTools + ["kilocode", "gemini-cli", "claude-code"]
  }

  /** A tool that is not the primary route's own is asked, unless there are as many lanes as required and at least two. */
  lemma ToolAsked(primary: Route, preferredTools: seq<string>, preferredModel: string, required: int, i: nat)
    requires var tools := AllTools(preferredTools); i < |tools| && tools[i] != primary.tool && tools[i] !in tools[..i]
    ensures var lanes := Lanes(primary, preferredTools, preferredModel, required);
      || |lanes| == (if required < 2 then 2 else required)
      || exists k :: 0 <= k < |lanes| && AsksTool(lanes[k], AllTools(preferredTools)[i], preferredModel)
  {
    var tools := preferredTools + DEFAULT_TOOLS;
    var lanes := Lanes(primary, preferredTools, preferredModel, required);
    var at := ToolTurn(primary, tools, preferredModel, i);
    assert at < |lanes| ==> AsksTool(lanes[at], tools[i], preferredModel);
  }

  /** And its lane stands after those of the tools before it. */
  lemma ToolsInOrder(primary: Route, preferredTools: seq<string>, preferredModel: string, required: int, i: nat, j: nat, k: nat)
      returns (l: nat)
    requires var tools := AllTools(preferredTools);
      i < |tools| && tools[i] != primary.tool && tools[i] !in tools[..i] && j < i && tools[j] != primary.tool
    requires var lanes := Lanes(primary, preferredTools, preferredModel, required);
      k < |lanes| && AsksTool(lanes[k], AllTools(preferredTools)[i], preferredModel)
    ensures var lanes := Lanes(primary, preferredTools, preferredModel, required);
      l < k && AsksTool(lanes[l], AllTools(preferredTools)[j], preferredModel)
  {
    var tools := preferredTools + DEFAULT_TOOLS;
    var at := ToolTurn(primary, tools, preferredModel, i);
    assert Lanes(primary, preferredTools, preferredModel, required)[k] == Peer(tools[i], preferredModel);
    l := EarlierToolAsked(primary, tools, preferredModel, i, j, at);
  }

  /** Where the lane for this tool stands among all the routes, before they are cut off. */
  lemma ToolTurn(primary: Route, tools: seq<string>, preferredModel: string, i: nat) returns (at: nat)
    requires i < |tools| && tools[i] != primary.tool && tools[i] !in tools[..i]
    ensures var all := FirstSeen(Proposed(primary, tools, preferredModel));
      && at == |FirstSeen(Proposed(primary, tools[..i], preferredModel))| < |all|
      && (forall k | 0 <= k < |all| :: all[k] == Peer(tools[i], preferredModel) <==> k == at)
  {
    var route, before := Peer(tools[i], preferredModel), FirstSeen(Proposed(primary, tools[..i], preferredModel));
    ToolNotYetAsked(primary, tools, preferredModel, i);
    OneMoreTool(primary, tools, preferredModel, i);
    ProposedPrefix(primary, tools, i + 1, preferredModel);
    FirstSeenExactly(Proposed(primary, tools, preferredModel));
    at := |before|;
    OnlyThere(before, route, FirstSeen(Proposed(primary, tools, preferredModel)));
  }

  lemma OnlyThere(before: seq<Route>, route: Route, all: seq<Route>)
    requires before + [route] <= all && Distinct(all)
    ensures |before| < |all| && forall k | 0 <= k < |all| :: all[k] == route <==> k == |before|
  {
    assert all[|before|] == (before + [route])[|before|];
  }

  lemma ToolNotYetAsked(primary: Route, tools: seq<string>, preferredModel: string, i: nat)
    requires i < |tools| && tools[i] != primary.tool && tools[i] !in tools[..i]
    ensures Peer(tools[i], preferredModel) !in FirstSeen(Proposed(primary, tools[..i], preferredModel))
  {
    var route := Peer(tools[i], preferredModel);
    FirstSeenExactly(Proposed(primary, tools[..i], preferredModel));
    ProposedExactly(primary, tools[..i], preferredModel, route);
    forall j | 0 <= j < i ensures tools[..i][j] != tools[i] {
      assert tools[..i][j] in tools[..i];
    }
  }

  lemma EarlierToolAsked(primary: Route, tools: seq<string>, preferredModel: string, i: nat, j: nat, at: nat) returns (l: nat)
    requires j < i < |tools| && tools[j] != primary.tool
    requires at == |FirstSeen(Proposed(primary, tools[..i], preferredModel))|
    ensures l < at && l < |FirstSeen(Proposed(primary, tools, preferredModel))|
    ensures FirstSeen(Proposed(primary, tools, preferredModel))[l] == Peer(tools[j], preferredModel)
  {
    var route, before := Peer(tools[j], preferredModel), FirstSeen(Proposed(primary, tools[..i], preferredModel));
    assert tools[..i][j] == tools[j] && AsksTool(route, tools[j], preferredModel);
    ProposedExactly(primary, tools[..i], preferredModel, route);
    FirstSeenExactly(Proposed(primary, tools[..i], preferredModel));
    ProposedPrefix(primary, tools, i, preferredModel);
    l :| 0 <= l < |before| && before[l] == route;
  }

  lemma OnlyPrimary(primary: Route, preferredModel: string)
    ensures FirstSeen(Proposed(primary, [], preferredModel)) == if primary.provider != "" then [primary] else []
  {
    assert [primary][..0] == [];
  }

  lemma OneMoreTool(primary: Route, tools: seq<string>, preferredModel: string, i: nat)
    requires i < |tools|
    ensures var before := FirstSeen(Proposed(primary, tools[..i], preferredModel));
      var route := Peer(tools[i], preferredModel);
      FirstSeen(Proposed(primary, tools[..i + 1], preferredModel))
      == if tools[i] == primary.tool || route in before then before else before + [route]
  {
    assert tools[..i + 1][..i] == tools[..i];
    var proposed := Proposed(primary, tools[..i], preferredModel);
    if tools[i] == primary.tool {
      assert proposed + [] == proposed;
    } else {
      assert (proposed + [Peer(tools[i], preferredModel)])[..|proposed|] == proposed;
    }
  }

  /** The loop that adds the primary route and a peer for each tool, unless it was seen. */
  method DistinctRoutes(primary: Route, tools: seq<string>, preferredModel: string) returns (routes: seq<Route>)
    ensures routes == FirstSeen(Proposed(primary, tools, preferredModel))
  {
    routes := if primary.provider != "" then [primary] else [];
    OnlyPrimary(primary, preferredModel);
    assert tools[..0] == [];
    for i := 0 to |tools|
      invariant routes == FirstSeen(Proposed(primary, tools[..i], preferredModel))
    {
      OneMoreTool(primary, tools, preferredModel, i);
      var route := Peer(tools[i], preferredModel);
      if tools[i] != primary.tool && route !in routes {
        routes := routes + [route];
      }
    }
    assert tools[..|tools|] == tools;
  }

  method ConsensusWorkerRoutes(primary: Route, preferredTools: seq<string>, preferredModel: string, required: int)
    returns (routes: seq<Route>)
    ensures routes == Lanes(primary, preferredTools, preferredModel, required)
  {
    routes := DistinctRoutes(primary, preferredTools + DEFAULT_TOOLS, preferredModel);
    if |routes| >= Required(required) {
      routes := routes[..Required(required)];
    }
  }

  // ---------- the results that come back ----------

  /** A worker's latest answer; `applied` when the worker reports success. */
  datatype Result = Result(worker: TaskId, applied: bool, response: string)

  function Without(results: seq<Result>, worker: TaskId): seq<Result> {
    if results == [] then []
    else
      var last := results[|results| - 1];
      Without(results[..|results| - 1], worker) + (if last.worker == worker then [] else [last])
  }

  /** An earlier result of the same worker is dropped and the new one goes to the end. */
  function Deliver(results: seq<Result>, r: Result): seq<Result> {
    Without(results, r.worker) + [r]
  }

  function Applied(results: seq<Result>): seq<Result> {
    if results == [] then []
    else
      var last := results[|results| - 1];
      Applied(results[..|results| - 1]) + (if last.applied then [last] else [])
  }

  datatype Outcome = Collecting | Approved | Disagreement

  predicate SameAnswer(a: Result, b: Result) {
    Normalized(a.response) == Normalized(b.response)
  }

  /** The first required successes are compared with the first one. */
  predicate FirstAgree(successful: seq<Result>, required: nat)
    requires 0 < required <= |successful|
  {
    forall i | 0 <= i < required :: SameAnswer(successful[i], successful[0])
  }

  function Decide(results: seq<Result>, required: int): Outcome {
    var successful := Applied(results);
    if |successful| < Required(required) then Collecting
    else if FirstAgree(successful, Required(required)) then Approved
    else Disagreement
  }

  /** The results kept after some deliveries. */
  function Collected(deliveries: seq<Result>): seq<Result> {
    if deliveries == [] then []
    else Deliver(Collected(deliveries[..|deliveries| - 1]), deliveries[|deliveries| - 1])
  }

  // ---------- what the order of arrival cannot change ----------

  /** Each worker's last delivery. */
  function Latest(deliveries: seq<Result>): map<TaskId, Result> {
    if deliveries == [] then map[]
    else
      var last := deliveries[|deliveries| - 1];
      Latest(deliveries[..|deliveries| - 1])[last.worker := last]
  }

  ghost predicate OnePerWorker(results: seq<Result>) {
    forall i, j | 0 <= i < j < |results| :: results[i].worker != results[j].worker
  }

  lemma {:induction false} WithoutMembers(results: seq<Result>, worker: TaskId)
    ensures forall r :: r in Without(results, worker) <==> r in results && r.worker != worker
  {
    if results != [] {
      WithoutMembers(results[..|results| - 1], worker);
    }
  }

  lemma {:induction false} WithoutKeepsOnePerWorker(results: seq<Result>, worker: TaskId)
    requires OnePerWorker(results)
    ensures OnePerWorker(Without(results, worker))
  {
    if results != [] {
      var init, last := results[..|results| - 1], results[|results| - 1];
      WithoutKeepsOnePerWorker(init, worker);
      WithoutMembers(init, worker);
      var kept := Without(init, worker);
      forall i | 0 <= i < |kept| ensures kept[i].worker != last.worker {
        assert kept[i] in kept;
      }
    }
  }

  /** The results kept are the last delivery of each worker. */
  lemma {:induction false} CollectedIsLatest(deliveries: seq<Result>)
    ensures OnePerWorker(Collected(deliveries))
    ensures forall r :: r in Collected(deliveries) <==> r.worker in Latest(deliveries) && Latest(deliveries)[r.worker] == r
  {
    if deliveries != [] {
      var init := deliveries[..|deliveries| - 1];
      CollectedIsLatest(init);
      WithoutMembers(Collected(init), deliveries[|deliveries| - 1].worker);
      WithoutKeepsOnePerWorker(Collected(init), deliveries[|deliveries| - 1].worker);
    }
  }

  lemma {:induction false} AppliedExactly(results: seq<Result>)
    requires OnePerWorker(results)
    ensures OnePerWorker(Applied(results))
    ensures forall r :: r in Applied(results) <==> r in results && r.applied
  {
    if results != [] {
      var init := results[..|results| - 1];
      AppliedExactly(init);
      forall r | r in Applied(init) ensures r.worker != results[|results| - 1].worker {
        assert r in init;
      }
    }
  }

  /** No later delivery comes from the same worker. */
  predicate IsLast(deliveries: seq<Result>, i: nat) {
    i < |deliveries| && forall k | i < k < |deliveries| :: deliveries[k].worker != deliveries[i].worker
  }

  lemma {:induction false} WithoutInOrder(results: seq<Result>, worker: TaskId, i: nat, j: nat) returns (a: nat, b: nat)
    requires i < j < |results| && results[i].worker != worker && results[j].worker != worker
    ensures a < b < |Without(results, worker)|
    ensures Without(results, worker)[a] == results[i] && Without(results, worker)[b] == results[j]
  {
    var n := |results| - 1;
    var before := Without(results[..n], worker);
    if j < n {
      a, b := WithoutInOrder(results[..n], worker, i, j);
    } else {
      WithoutMembers(results[..n], worker);
      assert results[..n][i] in before;
      a :| 0 <= a < |before| && before[a] == results[i];
      b := |before|;
    }
  }

  lemma {:induction false} LastIsLatest(deliveries: seq<Result>, i: nat)
    requires IsLast(deliveries, i)
    ensures deliveries[i].worker in Latest(deliveries) && Latest(deliveries)[deliveries[i].worker] == deliveries[i]
  {
    var n := |deliveries| - 1;
    if i < n {
      assert IsLast(deliveries[..n], i);
      LastIsLatest(deliveries[..n], i);
      assert deliveries[n].worker != deliveries[i].worker;
    }
  }

  lemma LastBefore(deliveries: seq<Result>, i: nat)
    requires IsLast(deliveries, i) && i < |deliveries| - 1
    ensures var n := |deliveries| - 1;
      IsLast(deliveries[..n], i) && deliveries[..n][i] == deliveries[i] && deliveries[n].worker != deliveries[i].worker
  {
  }

  lemma KeptBefore(deliveries: seq<Result>, i: nat) returns (a: nat)
    requires IsLast(deliveries, i) && i < |deliveries| - 1
    ensures var n := |deliveries| - 1;
      var kept := Without(Collected(deliveries[..n]), deliveries[n].worker);
      a < |kept| && kept[a] == deliveries[i]
  {
    var n := |deliveries| - 1;
    LastBefore(deliveries, i);
    LastIsLatest(deliveries[..n], i);
    CollectedIsLatest(deliveries[..n]);
    WithoutMembers(Collected(deliveries[..n]), deliveries[n].worker);
    var kept := Without(Collected(deliveries[..n]), deliveries[n].worker);
    assert deliveries[i] in kept;
    a :| 0 <= a < |kept| && kept[a] == deliveries[i];
  }

  /** The results kept stand in the order of the deliveries. */
  lemma {:induction false} KeptInOrder(deliveries: seq<Result>, i: nat, j: nat) returns (a: nat, b: nat)
    requires i < j && IsLast(deliveries, i) && IsLast(deliveries, j)
    ensures a < b < |Collected(deliveries)|
    ensures Collected(deliveries)[a] == deliveries[i] && Collected(deliveries)[b] == deliveries[j]
  {
    var n := |deliveries| - 1;
    var before, worker := Collected(deliveries[..n]), deliveries[n].worker;
    assert Collected(deliveries) == Without(before, worker) + [deliveries[n]];
    if j < n {
      LastBefore(deliveries, i);
      LastBefore(deliveries, j);
      var x, y := KeptInOrder(deliveries[..n], i, j);
      a, b := WithoutInOrder(before, worker, x, y);
    } else {
      a := KeptBefore(deliveries, i);
      b := |Without(before, worker)|;
    }
  }

  /** And the successes among them in the same order. */
  lemma {:induction false} AppliedInOrder(results: seq<Result>, i: nat, j: nat) returns (a: nat, b: nat)
    requires i < j < |results| && results[i].applied && results[j].applied && OnePerWorker(results)
    ensures a < b < |Applied(results)| && Applied(results)[a] == results[i] && Applied(results)[b] == results[j]
  {
    var n := |results| - 1;
    var before := Applied(results[..n]);
    if j < n {
      a, b := AppliedInOrder(results[..n], i, j);
    } else {
      AppliedExactly(results[..n]);
      assert Applied(results) == before + [results[n]];
      assert results[..n][i] in before;
      a :| 0 <= a < |before| && before[a] == results[i];
      b := |before|;
    }
  }

  /** Successes that are their workers' last deliveries are compared in the order in which they arrived. */
  lemma SuccessesInOrder(deliveries: seq<Result>, i: nat, j: nat) returns (a: nat, b: nat)
    requires i < j && IsLast(deliveries, i) && IsLast(deliveries, j) && deliveries[i].applied && deliveries[j].applied
    ensures var successful := Applied(Collected(deliveries));
      a < b < |successful| && successful[a] == deliveries[i] && successful[b] == deliveries[j]
  {
    CollectedIsLatest(deliveries);
    var x, y := KeptInOrder(deliveries, i, j);
    a, b := AppliedInOrder(Collected(deliveries), x, y);
  }

  ghost function SuccessfulWorkers(latest: map<TaskId, Result>): set<TaskId> {
    set w | w in latest && latest[w].applied
  }

  lemma {:induction false} WorkersCounted(results: seq<Result>, workers: set<TaskId>)
    requires OnePerWorker(results)
    requires forall w :: w in workers <==> exists i :: 0 <= i < |results| && results[i].worker == w
    ensures |results| == |workers|
  {
    if results != [] {
      var n := |results| - 1;
      var rest := workers - {results[n].worker};
      forall w ensures w in rest <==> exists i :: 0 <= i < n && results[..n][i].worker == w {
        if w in rest {
          var i :| 0 <= i < |results| && results[i].worker == w;
          assert results[..n][i].worker == w;
        }
      }
      WorkersCounted(results[..n], rest);
    } else {
      assert forall w :: w !in workers;
    }
  }

  lemma SuccessfulCount(deliveries: seq<Result>)
    ensures |Applied(Collected(deliveries))| == |SuccessfulWorkers(Latest(deliveries))|
  {
    var latest := Latest(deliveries);
    var successful := Applied(Collected(deliveries));
    CollectedIsLatest(deliveries);
    AppliedExactly(Collected(deliveries));
    forall w ensures w in SuccessfulWorkers(latest) <==> exists i :: 0 <= i < |successful| && successful[i].worker == w {
      if w in SuccessfulWorkers(latest) {
        LatestNamesWorker(deliveries, w);
        assert latest[w] in successful;
      }
      if i :| 0 <= i < |successful| && successful[i].worker == w {
        assert successful[i] in successful;
      }
    }
    WorkersCounted(successful, SuccessfulWorkers(latest));
  }

  lemma {:induction false} LatestNamesWorker(deliveries: seq<Result>, w: TaskId)
    requires w in Latest(deliveries)
    ensures Latest(deliveries)[w].worker == w
  {
    if w != deliveries[|deliveries| - 1].worker {
      LatestNamesWorker(deliveries[..|deliveries| - 1], w);
    }
  }

  ghost predicate AllAgree(latest: map<TaskId, Result>) {
    forall v, w | v in SuccessfulWorkers(latest) && w in SuccessfulWorkers(latest) :: SameAnswer(latest[v], latest[w])
  }

  /**
   The decision in terms of each worker's last delivery alone. With no more workers than required,
   it approves exactly when all required workers succeeded and all of them agree.
   */
  lemma DecisionExactly(deliveries: seq<Result>, required: int)
    requires |SuccessfulWorkers(Latest(deliveries))| <= Required(required)
    ensures Decide(Collected(deliveries), required)
      == if |SuccessfulWorkers(Latest(deliveries))| < Required(required) then Collecting
         else if AllAgree(Latest(deliveries)) then Approved
         else Disagreement
  {
    var latest := Latest(deliveries);
    var successful := Applied(Collected(deliveries));
    SuccessfulCount(deliveries);
    CollectedIsLatest(deliveries);
    AppliedExactly(Collected(deliveries));
    if |successful| == Required(required) {
      forall i | 0 <= i < |successful|
        ensures successful[i].worker in SuccessfulWorkers(latest) && latest[successful[i].worker] == successful[i]
      {
        assert successful[i] in successful;
      }
      forall w | w in SuccessfulWorkers(latest) ensures exists i :: 0 <= i < |successful| && successful[i] == latest[w] {
        LatestNamesWorker(deliveries, w);
        assert latest[w] in successful;
      }
    }
  }

  lemma SuccessfulAreWorkers(deliveries: seq<Result>, workers: set<TaskId>)
    requires forall r | r in deliveries :: r.worker in workers
    ensures SuccessfulWorkers(Latest(deliveries)) <= workers && |SuccessfulWorkers(Latest(deliveries))| <= |workers|
  {
    LatestFromDeliveries(deliveries);
    forall w | w in SuccessfulWorkers(Latest(deliveries)) ensures w in workers {
      LatestNamesWorker(deliveries, w);
    }
    SubsetSize(SuccessfulWorkers(Latest(deliveries)), workers);
  }

  lemma SubsetSize(a: set<TaskId>, b: set<TaskId>)
    requires a <= b
    ensures |a| <= |b| && (|a| == |b| ==> a == b)
  {
    assert b == a + (b - a);
  }

  lemma {:induction false} LatestFromDeliveries(deliveries: seq<Result>)
    ensures forall w | w in Latest(deliveries) :: Latest(deliveries)[w] in deliveries
  {
    if deliveries != [] {
      LatestFromDeliveries(deliveries[..|deliveries| - 1]);
    }
  }

  lemma {:induction false} LatestOfOneEach(deliveries: seq<Result>)
    requires OnePerWorker(deliveries)
    ensures forall r | r in deliveries :: r.worker in Latest(deliveries) && Latest(deliveries)[r.worker] == r
  {
    if deliveries != [] {
      var init := deliveries[..|deliveries| - 1];
      LatestOfOneEach(init);
      assert deliveries == init + [deliveries[|deliveries| - 1]];
    }
  }

  /** Deliveries that leave every worker with the same last answer decide alike, redelivered or not. */
  lemma SameAnswersDecideAlike(some: seq<Result>, others: seq<Result>, workers: set<TaskId>, required: int)
    requires Latest(some) == Latest(others)
    requires (forall r | r in some :: r.worker in workers) && |workers| <= Required(required)
    ensures Decide(Collected(some), required) == Decide(Collected(others), required)
  {
    SuccessfulAreWorkers(some, workers);
    DecisionExactly(some, required);
    DecisionExactly(others, required);
  }

  /** Results delivered once each decide alike in every order of arrival. */
  lemma ArrivalOrderIrrelevant(some: seq<Result>, others: seq<Result>, workers: set<TaskId>, required: int)
    requires OnePerWorker(some) && OnePerWorker(others) && forall r :: r in some <==> r in others
    requires (forall r | r in some :: r.worker in workers) && |workers| <= Required(required)
    ensures Decide(Collected(some), required) == Decide(Collected(others), required)
  {
    LatestOfOneEach(some);
    LatestOfOneEach(others);
    LatestFromDeliveries(some);
    LatestFromDeliveries(others);
    forall w ensures w in Latest(some) <==> w in Latest(others)
      ensures w in Latest(some) && w in Latest(others) ==> Latest(some)[w] == Latest(others)[w]
    {
      if w in Latest(some) {
        LatestNamesWorker(some, w);
      }
      if w in Latest(others) {
        LatestNamesWorker(others, w);
      }
    }
    assert Latest(some) == Latest(others);
    SameAnswersDecideAlike(some, others, workers, required);
  }

  /**
   A decision is reached exactly when there are as many workers as required and each of them has
   succeeded in its last delivery: one failed worker, or one lane too few, and it stays open.
   */
  lemma DecidedExactly(deliveries: seq<Result>, workers: set<TaskId>, required: int)
    requires (forall r | r in deliveries :: r.worker in workers) && |workers| <= Required(required)
    ensures Decide(Collected(deliveries), required) != Collecting
      <==> |workers| == Required(required) && SuccessfulWorkers(Latest(deliveries)) == workers
  {
    SuccessfulAreWorkers(deliveries, workers);
    DecisionExactly(deliveries, required);
    SubsetSize(SuccessfulWorkers(Latest(deliveries)), workers);
  }

  /** Asking for more than four reviews without naming further tools can never be decided. */
  lemma TooManyReviewsNeverDecided(primary: Route, preferredModel: string, required: int, workers: set<TaskId>, deliveries: seq<Result>)
    requires required > 4
    requires |workers| == |Lanes(primary, [], preferredModel, required)| && forall r | r in deliveries :: r.worker in workers
    ensures Decide(Collected(deliveries), required) == Collecting
  {
    LanesExactly(primary, [], preferredModel, required);
    DecidedExactly(deliveries, workers, required);
  }

  // ---------- the parent task ----------

  function Except(ids: seq<TaskId>, id: TaskId): seq<TaskId> {
    if ids == [] then []
    else Except(ids[..|ids| - 1], id) + (if ids[|ids| - 1] == id then [] else [ids[|ids| - 1]])
  }

  lemma {:induction false} ExceptExactly(ids: seq<TaskId>, id: TaskId)
    ensures forall x :: x in Except(ids, id) <==> x in ids && x != id
  {
    if ids != [] {
      var init, last := ids[..|ids| - 1], ids[|ids| - 1];
      ExceptExactly(init, id);
      assert ids == init + [last];
    }
  }

  lemma {:induction false} ExceptKeepsOrder(ids: seq<TaskId>, id: TaskId)
    ensures Subsequence(Except(ids, id), ids)
  {
    if ids != [] {
      var init, last := ids[..|ids| - 1], ids[|ids| - 1];
      ExceptKeepsOrder(init, id);
      assert ids == init + [last];
      if last == id {
        SubsequenceLonger(Except(init, id), init, last);
        assert Except(init, id) + [] == Except(init, id);
      } else {
        SubsequenceBoth(Except(init, id), init, last);
      }
    }
  }

  /** The parent task as stored: its status, the workers it waits for, their results and the outcome so far. */
  datatype Parent = Parent(status: Status, active: seq<TaskId>, results: seq<Result>, outcome: Outcome)

  /** What one delivery makes of it. A disagreement keeps the active workers as they are. */
  function AfterDelivery(parent: Parent, required: int, r: Result): Parent {
    var results := Deliver(parent.results, r);
    var outcome := Decide(results, required);
    var status := match outcome { case Collecting => Working case Approved => Complete case Disagreement => Blocked };
    Parent(status, if outcome == Disagreement then parent.active else Except(parent.active, r.worker), results, outcome)
  }

  function ParentAfter(required: int, workers: seq<TaskId>, deliveries: seq<Result>): Parent {
    if deliveries == [] then Parent(Working, workers, [], Collecting)
    else AfterDelivery(ParentAfter(required, workers, deliveries[..|deliveries| - 1]), required, deliveries[|deliveries| - 1])
  }

  lemma {:induction false} ParentResults(required: int, workers: seq<TaskId>, deliveries: seq<Result>)
    ensures ParentAfter(required, workers, deliveries).results == Collected(deliveries)
    ensures deliveries != [] ==> ParentAfter(required, workers, deliveries).outcome == Decide(Collected(deliveries), required)
  {
    if deliveries != [] {
      ParentResults(required, workers, deliveries[..|deliveries| - 1]);
    }
  }

  /** This delivery came with a disagreement. */
  predicate DisagreedAt(deliveries: seq<Result>, required: int, k: nat) {
    k < |deliveries| && Decide(Collected(deliveries[..k + 1]), required) == Disagreement
  }

  lemma ActiveStep(required: int, workers: seq<TaskId>, deliveries: seq<Result>, w: TaskId)
    requires deliveries != []
    ensures var n := |deliveries| - 1;
      w in ParentAfter(required, workers, deliveries).active
      <==> w in ParentAfter(required, workers, deliveries[..n]).active
           && (deliveries[n].worker == w ==> DisagreedAt(deliveries, required, n))
  {
    var n := |deliveries| - 1;
    ParentResults(required, workers, deliveries);
    ExceptExactly(ParentAfter(required, workers, deliveries[..n]).active, deliveries[n].worker);
    assert deliveries[..n + 1] == deliveries;
  }

  /** Each delivery of the worker came with a disagreement. */
  ghost predicate AlwaysDisagreed(deliveries: seq<Result>, required: int, w: TaskId) {
    forall k: nat | k < |deliveries| && deliveries[k].worker == w :: DisagreedAt(deliveries, required, k)
  }

  lemma DisagreedEarlier(deliveries: seq<Result>, required: int, n: nat, k: nat)
    requires k < n <= |deliveries|
    ensures DisagreedAt(deliveries[..n], required, k) <==> DisagreedAt(deliveries, required, k)
  {
    assert deliveries[..n][..k + 1] == deliveries[..k + 1];
  }

  lemma AlwaysStep(deliveries: seq<Result>, required: int, w: TaskId)
    requires deliveries != []
    ensures var n := |deliveries| - 1;
      AlwaysDisagreed(deliveries, required, w)
      <==> AlwaysDisagreed(deliveries[..n], required, w) && (deliveries[n].worker == w ==> DisagreedAt(deliveries, required, n))
  {
    var n := |deliveries| - 1;
    forall k: nat | k < n ensures DisagreedAt(deliveries[..n], required, k) <==> DisagreedAt(deliveries, required, k) {
      DisagreedEarlier(deliveries, required, n, k);
    }
    if AlwaysDisagreed(deliveries, required, w) {
      forall k: nat | k < n && deliveries[..n][k].worker == w ensures DisagreedAt(deliveries[..n], required, k) {
        assert deliveries[k].worker == w && DisagreedAt(deliveries, required, k);
      }
    }
    if AlwaysDisagreed(deliveries[..n], required, w) {
      forall k: nat | k < n && deliveries[k].worker == w ensures DisagreedAt(deliveries, required, k) {
        assert deliveries[..n][k].worker == w && DisagreedAt(deliveries[..n], required, k);
      }
    }
  }

  /** The parent still waits for a worker exactly when each delivery of it so far came with a disagreement. */
  lemma {:induction false} ActiveExactly(required: int, workers: seq<TaskId>, deliveries: seq<Result>, w: TaskId)
    ensures w in ParentAfter(required, workers, deliveries).active <==> w in workers && AlwaysDisagreed(deliveries, required, w)
  {
    if deliveries != [] {
      ActiveExactly(required, workers, deliveries[..|deliveries| - 1], w);
      ActiveStep(required, workers, deliveries, w);
      AlwaysStep(deliveries, required, w);
    }
  }

  /** There are as many workers as required, and at least two, and each succeeded in its last delivery. */
  ghost predicate AllSucceeded(required: int, workers: seq<TaskId>, latest: map<TaskId, Result>) {
    |workers| == (if required < 2 then 2 else required) && forall w | w in workers :: w in latest && latest[w].applied
  }

  /** Their answers are the same words, in any case and however spaced. */
  ghost predicate AllAlike(workers: seq<TaskId>, latest: map<TaskId, Result>) {
    forall v, w | v in workers && w in workers && v in latest && w in latest ::
      Spaced(Words(Lower(latest[v].response))) == Spaced(Words(Lower(latest[w].response)))
  }

  lemma AlikeExactly(workers: seq<TaskId>, latest: map<TaskId, Result>)
    requires forall w | w in workers :: w in latest && latest[w].applied
    requires forall w | w in latest :: w in workers
    ensures AllAgree(latest) <==> AllAlike(workers, latest)
  {
    forall w | w in latest ensures Normalized(latest[w].response) == Spaced(Words(Lower(latest[w].response))) {
      NormalizedExactly(latest[w].response);
    }
    if AllAlike(workers, latest) {
      forall v, w | v in SuccessfulWorkers(latest) && w in SuccessfulWorkers(latest) ensures SameAnswer(latest[v], latest[w]) {
      }
    }
    if AllAgree(latest) {
      forall v, w | v in workers && w in workers
        ensures Spaced(Words(Lower(latest[v].response))) == Spaced(Words(Lower(latest[w].response)))
      {
        assert v in SuccessfulWorkers(latest) && w in SuccessfulWorkers(latest) && SameAnswer(latest[v], latest[w]);
      }
    }
  }

  lemma {:induction false} LatestOfWorkers(deliveries: seq<Result>, workers: seq<TaskId>)
    requires forall r | r in deliveries :: r.worker in workers
    ensures forall w | w in Latest(deliveries) :: w in workers
  {
    if deliveries != [] {
      LatestOfWorkers(deliveries[..|deliveries| - 1], workers);
    }
  }

  /**
   What becomes of the parent, in terms of the last delivery of each worker: it completes when as many workers as
   required, and at least two, all succeeded and all answers are alike; it is blocked when they succeeded and differ; it works on otherwise.
   */
  lemma ParentExactly(required: int, workers: seq<TaskId>, deliveries: seq<Result>)
    requires Distinct(workers) && |workers| <= (if required < 2 then 2 else required)
    requires forall r | r in deliveries :: r.worker in workers
    ensures var latest, status := Latest(deliveries), ParentAfter(required, workers, deliveries).status;
      && (status == Complete <==> AllSucceeded(required, workers, latest) && AllAlike(workers, latest))
      && (status == Blocked <==> AllSucceeded(required, workers, latest) && !AllAlike(workers, latest))
      && (status == Working <==> !AllSucceeded(required, workers, latest))
  {
    var latest, asked := Latest(deliveries), set w | w in workers;
    DistinctSize(workers);
    ParentResults(required, workers, deliveries);
    LatestOfWorkers(deliveries, workers);
    SucceededExactly(required, workers, deliveries);
    if AllSucceeded(required, workers, latest) {
      AlikeExactly(workers, latest);
      SuccessfulAreWorkers(deliveries, asked);
      DecisionExactly(deliveries, required);
    }
  }

  lemma SucceededExactly(required: int, workers: seq<TaskId>, deliveries: seq<Result>)
    requires Distinct(workers) && |workers| <= Required(required) && forall r | r in deliveries :: r.worker in workers
    ensures Decide(Collected(deliveries), required) != Collecting <==> AllSucceeded(required, workers, Latest(deliveries))
  {
    var asked := set w | w in workers;
    DistinctSize(workers);
    LatestOfWorkers(deliveries, workers);
    DecidedExactly(deliveries, asked, required);
    assert SuccessfulWorkers(Latest(deliveries)) == asked
      <==> forall w | w in workers :: w in Latest(deliveries) && Latest(deliveries)[w].applied by {
      if SuccessfulWorkers(Latest(deliveries)) == asked {
        forall w | w in workers ensures w in Latest(deliveries) && Latest(deliveries)[w].applied {
          assert w in asked;
        }
      }
    }
  }

  method SuccessfulResults(results: seq<Result>) returns (successful: seq<Result>)
    ensures successful == Applied(results)
  {
    successful := [];
    for i := 0 to |results|
      invariant successful == Applied(results[..i])
    {
      assert results[..i + 1][..i] == results[..i];
      if results[i].applied {
        successful := successful + [results[i]];
      }
    }
    assert results[..|results|] == results;
  }

  class ConsensusParent {
    const requiredReviews: int
    var status: Status
    var activeChildren: seq<TaskId>
    var results: seq<Result>
    var outcome: Outcome

    ghost function Stored(): Parent
      reads this
    {
      Parent(status, activeChildren, results, outcome)
    }

    /** As `_delegate_consensus_message_task` leaves it: working, with all workers active. */
    constructor (required: int, workers: seq<TaskId>)
      ensures requiredReviews == required && Stored() == ParentAfter(required, workers, [])
    {
      requiredReviews, status, activeChildren, results, outcome := required, Working, workers, [], Collecting;
    }

    method ReconcileConsensusWorkerResult(r: Result)
      modifies this
      ensures Stored() == AfterDelivery(old(Stored()), requiredReviews, r)
    {
      var kept := ResultsOfOthers(r.worker);
      results := kept + [r];
      var successful := SuccessfulResults(results);
      var required := Required(requiredReviews);
      if |successful| < required {
        outcome, status := Collecting, Working;
      } else {
        var agree := true;
        for i := 0 to required
          invariant agree <==> forall k | 0 <= k < i :: SameAnswer(successful[k], successful[0])
          invariant results == Deliver(old(results), r) && activeChildren == old(activeChildren)
        {
          if !SameAnswer(successful[i], successful[0]) {
            agree := false;
          }
        }
        if agree {
          outcome, status := Approved, Complete;
        } else {
          outcome, status := Disagreement, Blocked;
          return;
        }
      }
      activeChildren := Except(activeChildren, r.worker);
    }

    method ResultsOfOthers(worker: TaskId) returns (kept: seq<Result>)
      ensures kept == Without(results, worker)
    {
      kept := [];
      for i := 0 to |results|
        invariant kept == Without(results[..i], worker)
      {
        assert results[..i + 1][..i] == results[..i];
        if results[i].worker != worker {
          kept := kept + [results[i]];
        }
      }
      assert results[..|results|] == results;
    }
  }
}
