/**
 Recursive handing on of a task, and the vote over several decisions (astrata/controllers/base.py).
 What a controller answers may depend on everything it is given; here it is a function of the
 controller and of the path of delegations that led to it.
 */
module Delegation {
  import opened Options

  type ControllerId = nat

  datatype Status = Accepted | Deferred | Blocked | Refused

  /** Each follow-up action names the controller it delegates to, or none. */
  datatype Decision = Decision(status: Status, followups: seq<Option<ControllerId>>)

  type Path = seq<nat>

  type Answers = (ControllerId, Path) -> Decision

  predicate Successful(d: Decision) {
    d.status == Accepted || d.status == Deferred
  }

  predicate Delegates(known: seq<ControllerId>, action: Option<ControllerId>) {
    action.Some? && action.value in known
  }

  /** How many of the actions delegate to a known controller. */
  function Delegations(known: seq<ControllerId>, actions: seq<Option<ControllerId>>): nat {
    if actions == [] then 0
    else
      Delegations(known, actions[..|actions| - 1]) + (if Delegates(known, actions[|actions| - 1]) then 1 else 0)
  }

  /** The controller at the end of `route`, a path of delegations to known controllers that starts at `c`. */
  function Reached(answers: Answers, known: seq<ControllerId>, c: ControllerId, path: Path, route: Path): Option<ControllerId>
    decreases |route|
  {
    if route == [] then Some(c)
    else
      var actions := answers(c, path).followups;
      if route[0] < |actions| && Delegates(known, actions[route[0]])
      then Reached(answers, known, actions[route[0]].value, path + [route[0]], route[1..])
      else None
  }

  /** The controller at the end of the route, if any, is above the depth limit and accepts or defers. */
  predicate Fine(answers: Answers, known: seq<ControllerId>, c: ControllerId, path: Path, room: int, route: Path) {
    var d := Reached(answers, known, c, path, route);
    d.Some? ==>
      var status := answers(d.value, path + route).status;
      |route| < room && (status == Accepted || status == Deferred)
  }

  /** The task itself and all that it is delegated to, however deep, are fine. */
  ghost predicate AllFine(answers: Answers, known: seq<ControllerId>, c: ControllerId, path: Path, room: int) {
    forall route :: Fine(answers, known, c, path, room, route)
  }

  lemma FineBelow(answers: Answers, known: seq<ControllerId>, c: ControllerId, path: Path, room: int, k: nat, route: Path)
    requires k < |answers(c, path).followups| && Delegates(known, answers(c, path).followups[k])
    ensures Fine(answers, known, c, path, room, [k] + route)
      <==> Fine(answers, known, answers(c, path).followups[k].value, path + [k], room - 1, route)
  {
    assert ([k] + route)[1..] == route;
    assert path + ([k] + route) == path + [k] + route;
  }

  lemma AllFineBelow(answers: Answers, known: seq<ControllerId>, c: ControllerId, path: Path, room: int, k: nat)
    requires k < |answers(c, path).followups| && Delegates(known, answers(c, path).followups[k])
    requires AllFine(answers, known, c, path, room)
    ensures AllFine(answers, known, answers(c, path).followups[k].value, path + [k], room - 1)
  {
    var d, there, below := answers(c, path).followups[k].value, path + [k], room - 1;
    forall route ensures Fine(answers, known, d, there, below, route) {
      FineBelow(answers, known, c, path, room, k, route);
    }
  }

  /** All is fine exactly when the root is and everything is fine below each of its delegations. */
  lemma AllFineExactly(answers: Answers, known: seq<ControllerId>, c: ControllerId, path: Path, room: int)
    ensures var actions := answers(c, path).followups;
      AllFine(answers, known, c, path, room) <==>
        && room > 0 && Successful(answers(c, path))
        && forall k: nat | k < |actions| && Delegates(known, actions[k]) ::
             AllFine(answers, known, actions[k].value, path + [k], room - 1)
  {
    var actions := answers(c, path).followups;
    assert path + [] == path;
    if AllFine(answers, known, c, path, room) {
      assert Fine(answers, known, c, path, room, []);
      forall k: nat | k < |actions| && Delegates(known, actions[k])
        ensures AllFine(answers, known, actions[k].value, path + [k], room - 1)
      {
        AllFineBelow(answers, known, c, path, room, k);
      }
    }
    if && room > 0 && Successful(answers(c, path))
       && forall k: nat | k < |actions| && Delegates(known, actions[k]) ::
            AllFine(answers, known, actions[k].value, path + [k], room - 1)
    {
      forall route ensures Fine(answers, known, c, path, room, route) {
        if route != [] && route[0] < |actions| && Delegates(known, actions[route[0]]) {
          FineBelow(answers, known, c, path, room, route[0], route[1..]);
          assert route == [route[0]] + route[1..];
        }
      }
    }
  }

  // ---------- how much is evaluated ----------

  function Power(b: nat, n: nat): nat {
    if n == 0 then 1 else b * Power(b, n - 1)
  }

  /** The sum of b^i for i below n. */
  function Geometric(b: nat, n: nat): nat {
    if n == 0 then 0 else Geometric(b, n - 1) + Power(b, n - 1)
  }

  lemma Distribute(b: nat, x: nat, y: nat)
    ensures b * (x + y) == b * x + b * y
  {
  }

  lemma {:induction false} GeometricGrows(b: nat, n: nat)
    ensures Geometric(b, n + 1) == 1 + b * Geometric(b, n)
  {
    if n > 0 {
      GeometricGrows(b, n - 1);
      Distribute(b, Geometric(b, n - 1), Power(b, n - 1));
    }
  }

  ghost predicate Bounded(answers: Answers, known: seq<ControllerId>, b: nat) {
    forall c, path :: Delegations(known, answers(c, path).followups) <= b
  }

  function Room(depth: nat, maxDepth: nat): nat {
    if depth < maxDepth then maxDepth - depth else 0
  }

  lemma OneMoreDelegation(known: seq<ControllerId>, actions: seq<Option<ControllerId>>, k: nat)
    requires k < |actions|
    ensures Delegations(known, actions[..k + 1]) == Delegations(known, actions[..k]) + if Delegates(known, actions[k]) then 1 else 0
  {
    assert actions[..k + 1][..k] == actions[..k];
  }

  lemma {:induction false} DelegationsOfPrefix(known: seq<ControllerId>, actions: seq<Option<ControllerId>>, k: nat)
    requires k <= |actions|
    ensures Delegations(known, actions[..k]) <= Delegations(known, actions)
    decreases |actions| - k
  {
    if k < |actions| {
      OneMoreDelegation(known, actions, k);
      DelegationsOfPrefix(known, actions, k + 1);
    } else {
      assert actions[..k] == actions;
    }
  }

  /** One evaluation and, for each delegation done, no more than the bound for the level below. */
  ghost predicate WithinBound(answers: Answers, known: seq<ControllerId>, b: nat, most: nat, done: nat, spent: nat) {
    Bounded(answers, known, b) ==> spent <= 1 + done * most
  }

  lemma WithinBoundEnd(answers: Answers, known: seq<ControllerId>, b: nat, n: nat, done: nat, spent: nat)
    requires WithinBound(answers, known, b, Geometric(b, n), done, spent)
    requires Bounded(answers, known, b) ==> done <= b
    ensures Bounded(answers, known, b) ==> spent <= Geometric(b, n + 1)
  {
    GeometricGrows(b, n);
    if Bounded(answers, known, b) {
      assert b * Geometric(b, n) == done * Geometric(b, n) + (b - done) * Geometric(b, n);
    }
  }

  /** The first `k` follow-up actions have been handled, each with success. */
  ghost predicate Handled(answers: Answers, known: seq<ControllerId>, c: ControllerId, path: Path, room: nat, b: nat, k: nat, spent: nat)
    requires k <= |answers(c, path).followups|
  {
    var actions := answers(c, path).followups;
    && (forall j: nat | j < k && Delegates(known, actions[j]) :: AllFine(answers, known, actions[j].value, path + [j], room))
    && WithinBound(answers, known, b, Geometric(b, room), Delegations(known, actions[..k]), spent)
  }

  lemma HandledOneMore(answers: Answers, known: seq<ControllerId>, c: ControllerId, path: Path, room: nat, b: nat, k: nat,
                       spent: nat, more: nat)
    requires k < |answers(c, path).followups| && Handled(answers, known, c, path, room, b, k, spent)
    requires var action := answers(c, path).followups[k];
      if Delegates(known, action) then Bounded(answers, known, b) ==> more <= Geometric(b, room) else more == 0
    ensures var actions := answers(c, path).followups;
      && WithinBound(answers, known, b, Geometric(b, room), Delegations(known, actions[..k + 1]), spent + more)
      && ((Delegates(known, actions[k]) ==> AllFine(answers, known, actions[k].value, path + [k], room))
          ==> Handled(answers, known, c, path, room, b, k + 1, spent + more))
  {
    var actions := answers(c, path).followups;
    var most := Geometric(b, room);
    OneMoreDelegation(known, actions, k);
    WithinBoundOneMore(answers, known, b, most, Delegations(known, actions[..k]), Delegates(known, actions[k]), spent, more);
  }

  lemma WithinBoundOneMore(answers: Answers, known: seq<ControllerId>, b: nat, most: nat, done: nat, delegates: bool, spent: nat, more: nat)
    requires WithinBound(answers, known, b, most, done, spent)
    requires if delegates then Bounded(answers, known, b) ==> more <= most else more == 0
    ensures WithinBound(answers, known, b, most, done + if delegates then 1 else 0, spent + more)
  {
    assert (done + 1) * most == done * most + most;
  }

  /** However the handling ends, the evaluations stay within the bound for one level more. */
  lemma HandledWithin(answers: Answers, known: seq<ControllerId>, c: ControllerId, path: Path, room: nat, b: nat, k: nat, spent: nat)
    requires k <= |answers(c, path).followups|
    requires WithinBound(answers, known, b, Geometric(b, room), Delegations(known, answers(c, path).followups[..k]), spent)
    ensures Bounded(answers, known, b) ==> spent <= Geometric(b, room + 1)
  {
    DelegationsOfPrefix(known, answers(c, path).followups, k);
    WithinBoundEnd(answers, known, b, room, Delegations(known, answers(c, path).followups[..k]), spent);
  }

  /** The first of the actions below which something is not fine. */
  ghost predicate FirstFailing(answers: Answers, known: seq<ControllerId>, c: ControllerId, path: Path, room: int, k: nat) {
    var actions := answers(c, path).followups;
    && k < |actions| && actions[k].Some? && actions[k].value in known
    && !AllFine(answers, known, actions[k].value, path + [k], room)
    && forall j: nat | j < k && actions[j].Some? && actions[j].value in known :: AllFine(answers, known, actions[j].value, path + [j], room)
  }

  /**
   Why a task fails: it is blocked at the depth limit, or its own decision is neither accepted nor deferred and is
   returned, or it is blocked with the first action that failed below it.
   */
  ghost predicate FailsAt(answers: Answers, known: seq<ControllerId>, c: ControllerId, path: Path, depth: nat, maxDepth: nat, result: Decision) {
    if depth >= maxDepth then result == Decision(Blocked, [])
    else
      var own := answers(c, path);
      if own.status == Blocked || own.status == Refused then result == own
      else exists k: nat :: FirstFailing(answers, known, c, path, maxDepth - depth - 1, k) && result == Decision(Blocked, [own.followups[k]])
  }

  /**
   The task succeeds exactly when it and everything it is delegated to succeed above the depth limit;
   its result is then the controller's own decision. At most the sum of b^i for i below the remaining
   depth evaluations are made when no decision delegates more than b times.
   */
  method ProcessRecursiveTask(answers: Answers, known: seq<ControllerId>, c: ControllerId, path: Path,
                              depth: nat, maxDepth: nat, ghost b: nat)
    returns (result: Decision, evaluations: nat)
    ensures (result.status == Accepted || result.status == Deferred) <==> AllFine(answers, known, c, path, Room(depth, maxDepth))
    ensures result.status == Accepted || result.status == Deferred ==> result == answers(c, path)
    ensures result.status == Accepted || result.status == Deferred || FailsAt(answers, known, c, path, depth, maxDepth, result)
    ensures Bounded(answers, known, b) ==> evaluations <= Geometric(b, Room(depth, maxDepth))
    decreases Room(depth, maxDepth)
  {
    AllFineExactly(answers, known, c, path, Room(depth, maxDepth));
    if depth >= maxDepth {
      return Decision(Blocked, []), 0;
    }
    ghost var room := Room(depth + 1, maxDepth);
    var decision := answers(c, path);
    evaluations := 1;
    var actions := decision.followups;
    assert actions[..0] == [];
    if !Successful(decision) {
      HandledWithin(answers, known, c, path, room, b, 0, 1);
      return decision, evaluations;
    }
    for k := 0 to |actions|
      invariant Handled(answers, known, c, path, room, b, k, evaluations)
    {
      var sub, spent := decision, 0;
      if actions[k].Some? && actions[k].value in known {
        sub, spent := ProcessRecursiveTask(answers, known, actions[k].value, path + [k], depth + 1, maxDepth, b);
      }
      HandledOneMore(answers, known, c, path, room, b, k, evaluations, spent);
      evaluations := evaluations + spent;
      if !Successful(sub) {
        HandledWithin(answers, known, c, path, room, b, k + 1, evaluations);
        assert FirstFailing(answers, known, c, path, maxDepth - depth - 1, k);
        return Decision(Blocked, [actions[k]]), evaluations;
      }
    }
    HandledWithin(answers, known, c, path, room, b, |actions|, evaluations);
    result := decision;
  }

  // ---------- majority of several decisions ----------

  datatype Vote = Vote(decision: Decision, reason: string, confidence: real)

  function Count(votes: seq<Vote>, status: Status): nat {
    if votes == [] then 0
    else Count(votes[..|votes| - 1], status) + if votes[|votes| - 1].decision.status == status then 1 else 0
  }

  function AllFollowups(votes: seq<Vote>): seq<Option<ControllerId>> {
    if votes == [] then [] else AllFollowups(votes[..|votes| - 1]) + votes[|votes| - 1].decision.followups
  }

  /** The statuses in the order in which they first occur. */
  function FirstSeen(votes: seq<Vote>): seq<Status> {
    if votes == [] then []
    else
      var before, last := FirstSeen(votes[..|votes| - 1]), votes[|votes| - 1].decision.status;
      if last in before then before else before + [last]
  }

  lemma {:induction false} SeenExactly(votes: seq<Vote>, status: Status)
    ensures status in FirstSeen(votes) <==> Count(votes, status) > 0
  {
    if votes != [] {
      SeenExactly(votes[..|votes| - 1], status);
    }
  }

  /** The status at this position of the order is the most frequent, and the earliest seen of those as frequent. */
  ghost predicate MajorityAt(votes: seq<Vote>, order: seq<Status>, k: nat) {
    && k < |order|
    && forall j | 0 <= j < |order| ::
         if j < k then Count(votes, order[j]) < Count(votes, order[k]) else Count(votes, order[j]) <= Count(votes, order[k])
  }

  /** The key of the first maximal count, in the order of the dictionary. */
  method FirstMaximum(order: seq<Status>, counts: map<Status, nat>, ghost votes: seq<Vote>) returns (status: Status)
    requires order != [] && forall x | x in order :: x in counts && counts[x] == Count(votes, x)
    ensures exists k: nat :: MajorityAt(votes, order, k) && status == order[k]
  {
    status := order[0];
    ghost var k := 0;
    for i := 1 to |order|
      invariant k < i && status == order[k]
      invariant forall j | 0 <= j < i ::
        if j < k then Count(votes, order[j]) < Count(votes, order[k]) else Count(votes, order[j]) <= Count(votes, order[k])
    {
      assert order[i] in order && order[k] in order;
      if counts[order[i]] > counts[status] {
        status, k := order[i], i;
      }
    }
    assert MajorityAt(votes, order, k);
  }

  /** The places of the votes for a status. */
  ghost function VotesFor(votes: seq<Vote>, status: Status): set<nat> {
    set i: nat | i < |votes| && votes[i].decision.status == status
  }

  lemma {:induction false} CountExactly(votes: seq<Vote>, status: Status)
    ensures Count(votes, status) == |VotesFor(votes, status)|
  {
    if votes == [] {
      assert VotesFor(votes, status) == {};
    } else {
      var n := |votes| - 1;
      CountExactly(votes[..n], status);
      OneMoreVote(votes, status);
    }
  }

  lemma OneMoreVote(votes: seq<Vote>, status: Status)
    requires votes != []
    ensures var n := |votes| - 1;
      VotesFor(votes, status) == VotesFor(votes[..n], status) + if votes[n].decision.status == status then {n} else {}
    ensures |votes| - 1 !in VotesFor(votes[..|votes| - 1], status)
  {
  }

  /** The first vote for a status that is most frequent: all statuses voted for earlier are less frequent. */
  ghost predicate FirstMostAt(votes: seq<Vote>, i: nat) {
    && i < |votes|
    && (forall j | 0 <= j < |votes| :: Count(votes, votes[j].decision.status) <= Count(votes, votes[i].decision.status))
    && (forall j | 0 <= j < i :: Count(votes, votes[j].decision.status) < Count(votes, votes[i].decision.status))
  }

  /** The order of the statuses is that of their first votes. */
  lemma {:induction false} SeenInOrder(votes: seq<Vote>, k: nat) returns (i: nat)
    requires k < |FirstSeen(votes)|
    ensures i < |votes| && votes[i].decision.status == FirstSeen(votes)[k]
    ensures forall j | 0 <= j < i :: votes[j].decision.status in FirstSeen(votes)[..k]
    ensures forall m | 0 <= m < k :: FirstSeen(votes)[m] != FirstSeen(votes)[k]
  {
    var n := |votes| - 1;
    var before := FirstSeen(votes[..n]);
    if k < |before| {
      i := SeenInOrder(votes[..n], k);
      assert FirstSeen(votes)[..k] == before[..k];
      forall j | 0 <= j < i ensures votes[j].decision.status in FirstSeen(votes)[..k] {
        assert votes[j] == votes[..n][j];
      }
    } else {
      i := n;
      assert FirstSeen(votes)[..k] == before;
      forall j | 0 <= j < n ensures votes[j].decision.status in before {
        SeenExactly(votes[..n], votes[j].decision.status);
        VotedCounts(votes[..n], j);
      }
    }
  }

  lemma {:induction false} VotedCounts(votes: seq<Vote>, j: nat)
    requires j < |votes|
    ensures Count(votes, votes[j].decision.status) > 0
  {
    if j < |votes| - 1 {
      VotedCounts(votes[..|votes| - 1], j);
    }
  }

  lemma MajorityIsFirstMost(votes: seq<Vote>, k: nat) returns (i: nat)
    requires MajorityAt(votes, FirstSeen(votes), k)
    ensures FirstMostAt(votes, i) && votes[i].decision.status == FirstSeen(votes)[k]
  {
    i := SeenInOrder(votes, k);
    var order := FirstSeen(votes);
    forall j | 0 <= j < |votes| ensures votes[j].decision.status in order {
      VotedCounts(votes, j);
      SeenExactly(votes, votes[j].decision.status);
    }
    forall j | 0 <= j < i ensures Count(votes, votes[j].decision.status) < Count(votes, votes[i].decision.status) {
      assert votes[j].decision.status in order[..k];
      var m :| 0 <= m < k && order[..k][m] == votes[j].decision.status;
      assert Count(votes, order[m]) < Count(votes, order[k]);
    }
  }

  /** What is summed and collected over votes is what is over their parts, in order. */
  lemma {:induction false} TotalExactly(a: seq<Vote>, b: seq<Vote>)
    ensures Total(a + b) == Total(a) + Total(b) && (|a| == 1 ==> Total(a) == a[0].confidence)
  {
    if b == [] {
      assert a + b == a;
    } else {
      TotalExactly(a, b[..|b| - 1]);
      assert (a + b)[..|a + b| - 1] == a + b[..|b| - 1];
    }
    assert |a| == 1 ==> a[..0] == [];
  }

  lemma Associative<T>(a: seq<T>, b: seq<T>, c: seq<T>)
    ensures (a + b) + c == a + (b + c)
  {
  }

  lemma {:induction false} FollowupsExactly(a: seq<Vote>, b: seq<Vote>)
    ensures AllFollowups(a + b) == AllFollowups(a) + AllFollowups(b) && (|a| == 1 ==> AllFollowups(a) == a[0].decision.followups)
  {
    if b == [] {
      assert a + b == a;
    } else {
      var n := |b| - 1;
      FollowupsExactly(a, b[..n]);
      assert (a + b)[..|a + b| - 1] == a + b[..n];
      Associative(AllFollowups(a), AllFollowups(b[..n]), b[n].decision.followups);
    }
    assert |a| == 1 ==> a[..0] == [];
  }

  function Said(vote: Vote): seq<string> {
    if vote.reason == "" then [] else [vote.reason]
  }

  lemma {:induction false} ReasonsExactly(a: seq<Vote>, b: seq<Vote>)
    ensures Reasons(a + b) == Reasons(a) + Reasons(b) && (|a| == 1 ==> Reasons(a) == Said(a[0]))
  {
    if b == [] {
      assert a + b == a;
    } else {
      var n := |b| - 1;
      ReasonsExactly(a, b[..n]);
      assert (a + b)[..|a + b| - 1] == a + b[..n];
      assert Reasons(a + b) == Reasons(a + b[..n]) + Said(b[n]);
      assert Reasons(b) == Reasons(b[..n]) + Said(b[n]);
      Associative(Reasons(a), Reasons(b[..n]), Said(b[n]));
    }
    assert |a| == 1 ==> a[..0] == [];
  }

  lemma {:induction false} JoinedExactly(a: seq<string>, b: seq<string>)
    requires a != [] && b != []
    ensures Joined(a + b) == Joined(a) + "; " + Joined(b)
    ensures |a| == 1 ==> Joined(a) == a[0]
  {
    var init, last := b[..|b| - 1], b[|b| - 1];
    AppendSplit(a, b);
    JoinedOneMore(a + init, last);
    if init == [] {
      assert a + init == a && Joined(b) == last;
    } else {
      JoinedExactly(a, init);
      JoinedOneMore(init, last);
      Glued(Joined(a), Joined(init), last);
    }
  }

  lemma AppendSplit(a: seq<string>, b: seq<string>)
    requires b != []
    ensures var init, last := b[..|b| - 1], b[|b| - 1]; a + b == (a + init) + [last] && b == init + [last]
  {
  }

  lemma Glued(a: string, b: string, c: string)
    ensures (a + "; " + b) + "; " + c == a + "; " + (b + "; " + c)
  {
  }

  lemma JoinedOneMore(init: seq<string>, last: string)
    requires init != []
    ensures Joined(init + [last]) == Joined(init) + "; " + last
  {
    assert (init + [last])[..|init|] == init;
  }

  function Total(votes: seq<Vote>): real {
    if votes == [] then 0.0 else Total(votes[..|votes| - 1]) + votes[|votes| - 1].confidence
  }

  /** What the loop has counted. */
  ghost predicate Tallied(done: seq<Vote>, order: seq<Status>, counts: map<Status, nat>) {
    && order == FirstSeen(done) && (forall s :: s in counts <==> s in order)
    && (forall s | s in counts :: counts[s] == Count(done, s))
  }

  lemma CountOneMore(done: seq<Vote>, v: Vote, status: Status)
    ensures Count(done + [v], status) == Count(done, status) + if v.decision.status == status then 1 else 0
  {
    assert (done + [v])[..|done|] == done;
  }

  lemma TalliedOneMore(done: seq<Vote>, v: Vote, order: seq<Status>, counts: map<Status, nat>)
    requires Tallied(done, order, counts)
    ensures var status := v.decision.status;
      if status in counts then Tallied(done + [v], order, counts[status := counts[status] + 1])
      else Tallied(done + [v], order + [status], counts[status := 1])
  {
    assert (done + [v])[..|done|] == done;
    SeenExactly(done, v.decision.status);
    forall s ensures Count(done + [v], s) == Count(done, s) + if v.decision.status == s then 1 else 0 {
      CountOneMore(done, v, s);
    }
  }

  method Tally(votes: seq<Vote>) returns (order: seq<Status>, counts: map<Status, nat>)
    ensures Tallied(votes, order, counts)
  {
    order, counts := [], map[];
    for i := 0 to |votes|
      invariant Tallied(votes[..i], order, counts)
    {
      TalliedOneMore(votes[..i], votes[i], order, counts);
      assert votes[..i + 1] == votes[..i] + [votes[i]];
      var status := votes[i].decision.status;
      if status in counts {
        counts := counts[status := counts[status] + 1];
      } else {
        counts, order := counts[status := 1], order + [status];
      }
    }
    assert votes[..|votes|] == votes;
  }

  lemma SomeSeen(votes: seq<Vote>)
    requires votes != []
    ensures FirstSeen(votes) != []
  {
    var last := votes[|votes| - 1];
    CountOneMore(votes[..|votes| - 1], last, last.decision.status);
    assert votes == votes[..|votes| - 1] + [last];
    SeenExactly(votes, last.decision.status);
  }

  /** The reasons that say something, in order. */
  function Reasons(votes: seq<Vote>): seq<string> {
    if votes == [] then []
    else
      Reasons(votes[..|votes| - 1]) + (if votes[|votes| - 1].reason == "" then [] else [votes[|votes| - 1].reason])
  }

  /** `"; ".join(reasons)` */
  function Joined(reasons: seq<string>): string {
    if reasons == [] then ""
    else if |reasons| == 1 then reasons[0]
    else Joined(reasons[..|reasons| - 1]) + "; " + reasons[|reasons| - 1]
  }

  method Combine(votes: seq<Vote>) returns (total: real, reasons: seq<string>, followups: seq<Option<ControllerId>>)
    ensures total == Total(votes) && reasons == Reasons(votes) && followups == AllFollowups(votes)
  {
    total, reasons, followups := 0.0, [], [];
    for i := 0 to |votes|
      invariant followups == AllFollowups(votes[..i]) && reasons == Reasons(votes[..i]) && total == Total(votes[..i])
    {
      assert votes[..i + 1][..i] == votes[..i];
      total := total + votes[i].confidence;
      if votes[i].reason != "" {
        reasons := reasons + [votes[i].reason];
      }
      followups := followups + votes[i].decision.followups;
    }
    assert votes[..|votes|] == votes;
  }

  /**
   Majority vote: no status is more frequent than the result's, and among those as frequent it is the one
   seen first; the confidence is the mean and the reasons are joined. No decisions at all are refused.
   */
  method AggregateDecisions(votes: seq<Vote>) returns (r: Vote)
    ensures votes == [] ==> r == Vote(Decision(Refused, []), "No decisions provided", 1.0)
    ensures votes != [] ==>
      && r.decision.followups == AllFollowups(votes)
      && (forall s :: Count(votes, s) <= Count(votes, r.decision.status))
      && (exists i: nat :: FirstMostAt(votes, i) && r.decision.status == votes[i].decision.status)
      && r.confidence == Total(votes) / (|votes| as real)
      && r.reason == if Reasons(votes) == [] then "Aggregated decision" else Joined(Reasons(votes))
  {
    if votes == [] {
      return Vote(Decision(Refused, []), "No decisions provided", 1.0);
    }
    var order, counts := Tally(votes);
    var total, reasons, followups := Combine(votes);
    SomeSeen(votes);
    var status := FirstMaximum(order, counts, votes);
    ghost var k: nat :| MajorityAt(votes, order, k) && status == order[k];
    MajorityIsMost(votes, k);
    ghost var i := MajorityIsFirstMost(votes, k);
    var reason := if reasons == [] then "Aggregated decision" else Joined(reasons);
    r := Vote(Decision(status, followups), reason, total / (|votes| as real));
  }

  lemma MajorityIsMost(votes: seq<Vote>, k: nat)
    requires MajorityAt(votes, FirstSeen(votes), k)
    ensures forall s :: Count(votes, s) <= Count(votes, FirstSeen(votes)[k])
  {
    forall s ensures Count(votes, s) <= Count(votes, FirstSeen(votes)[k]) {
      SeenExactly(votes, s);
    }
  }
}
