/**
 The bounded loop of drafting, verifying and editing (`_run_cyclone` in astrata/eval/cyclone.py).
 What the two models answer is any function of what they are given and of the round.
 */
module Cyclone {

  /** An answer and the wall time it took. */
  datatype Execution = Execution(content: string, seconds: real)

  datatype Steering = Steering(pass: bool, brief: string, seconds: real)

  type Verifier = (string, nat) -> Steering

  type Editor = (string, Steering, nat) -> Execution

  datatype Run = Run(final: Execution, draft: Execution, rounds: seq<Steering>, accepted: bool, totalSeconds: real)

  /** The draft after some revisions. */
  function Revision(draft: Execution, verify: Verifier, edit: Editor, k: nat): Execution {
    if k == 0 then draft
    else
      var previous := Revision(draft, verify, edit, k - 1).content;
      edit(previous, verify(previous, k - 1), k - 1)
  }

  function Review(draft: Execution, verify: Verifier, edit: Editor, k: nat): Steering {
    verify(Revision(draft, verify, edit, k).content, k)
  }

  predicate Passes(draft: Execution, verify: Verifier, edit: Editor, k: nat) {
    Review(draft, verify, edit, k).pass
  }

  /** `max(1, maxRounds)` */
  function RoundLimit(maxRounds: int): nat {
    if maxRounds < 1 then 1 else maxRounds
  }

  /** The sum of the times of these executions. */
  function EditSeconds(chain: seq<Execution>): real {
    if chain == [] then 0.0 else EditSeconds(chain[..|chain| - 1]) + chain[|chain| - 1].seconds
  }

  function ReviewSeconds(reviews: seq<Steering>): real {
    if reviews == [] then 0.0 else ReviewSeconds(reviews[..|reviews| - 1]) + reviews[|reviews| - 1].seconds
  }

  /**
   The answers of a run, each edited from the one before with its review: the draft first. Every round of the run
   reviews the answer of its number, the run ends with the last answer, and its time is the time of all of these calls.
   */
  ghost predicate Trace(run: Run, chain: seq<Execution>, verify: Verifier, edit: Editor) {
    && 0 < |chain| && |chain| - 1 <= |run.rounds| <= |chain|
    && chain[0] == run.draft && run.final == chain[|chain| - 1]
    && (forall k: nat | k < |run.rounds| :: run.rounds[k] == verify(chain[k].content, k))
    && (forall k: nat | k + 1 < |chain| :: chain[k + 1] == edit(chain[k].content, run.rounds[k], k))
    && run.totalSeconds == EditSeconds(chain) + ReviewSeconds(run.rounds)
  }

  ghost function Revisions(draft: Execution, verify: Verifier, edit: Editor, n: nat): (chain: seq<Execution>)
    ensures |chain| == n
  {
    seq(n, k requires 0 <= k < n => Revision(draft, verify, edit, k))
  }

  ghost function Reviews(draft: Execution, verify: Verifier, edit: Editor, n: nat): (reviews: seq<Steering>)
    ensures |reviews| == n
  {
    seq(n, k requires 0 <= k < n => Review(draft, verify, edit, k))
  }

  /** The wall time of the draft, the first `reviews` reviews and the first `edits` revisions. */
  function Seconds(draft: Execution, verify: Verifier, edit: Editor, reviews: nat, edits: nat): real
    decreases reviews + edits
  {
    if edits > 0 then Revision(draft, verify, edit, edits).seconds + Seconds(draft, verify, edit, reviews, edits - 1)
    else if reviews > 0 then Review(draft, verify, edit, reviews - 1).seconds + Seconds(draft, verify, edit, reviews - 1, 0)
    else draft.seconds
  }

  lemma {:induction false} OneMoreReview(draft: Execution, verify: Verifier, edit: Editor, reviews: nat, edits: nat)
    ensures Seconds(draft, verify, edit, reviews + 1, edits)
      == Seconds(draft, verify, edit, reviews, edits) + Review(draft, verify, edit, reviews).seconds
  {
    if edits > 0 {
      OneMoreReview(draft, verify, edit, reviews, edits - 1);
    }
  }

  lemma EditSecondsOneMore(draft: Execution, verify: Verifier, edit: Editor, n: nat)
    ensures EditSeconds(Revisions(draft, verify, edit, n + 1))
      == EditSeconds(Revisions(draft, verify, edit, n)) + Revision(draft, verify, edit, n).seconds
  {
    assert Revisions(draft, verify, edit, n + 1)[..n] == Revisions(draft, verify, edit, n);
  }

  lemma ReviewSecondsOneMore(draft: Execution, verify: Verifier, edit: Editor, n: nat)
    ensures ReviewSeconds(Reviews(draft, verify, edit, n + 1))
      == ReviewSeconds(Reviews(draft, verify, edit, n)) + Review(draft, verify, edit, n).seconds
  {
    assert Reviews(draft, verify, edit, n + 1)[..n] == Reviews(draft, verify, edit, n);
  }

  lemma {:induction false} SecondsOfTrace(draft: Execution, verify: Verifier, edit: Editor, reviews: nat, edits: nat)
    ensures Seconds(draft, verify, edit, reviews, edits)
      == EditSeconds(Revisions(draft, verify, edit, edits + 1)) + ReviewSeconds(Reviews(draft, verify, edit, reviews))
    decreases reviews + edits
  {
    EditSecondsOneMore(draft, verify, edit, edits);
    if edits > 0 {
      SecondsOfTrace(draft, verify, edit, reviews, edits - 1);
    } else if reviews > 0 {
      ReviewSecondsOneMore(draft, verify, edit, reviews - 1);
      SecondsOfTrace(draft, verify, edit, reviews - 1, 0);
    }
  }

  /** What `RunCyclone` returns is a chain of calls, each on what the one before returned. */
  lemma RunHasTrace(run: Run, verify: Verifier, edit: Editor, edits: nat) returns (chain: seq<Execution>)
    requires edits <= |run.rounds| <= edits + 1
    requires forall k | 0 <= k < |run.rounds| :: run.rounds[k] == Review(run.draft, verify, edit, k)
    requires run.final == Revision(run.draft, verify, edit, edits)
    requires run.totalSeconds == Seconds(run.draft, verify, edit, |run.rounds|, edits)
    ensures Trace(run, chain, verify, edit) && |chain| == edits + 1
  {
    chain := Revisions(run.draft, verify, edit, edits + 1);
    SecondsOfTrace(run.draft, verify, edit, |run.rounds|, edits);
    assert run.rounds == Reviews(run.draft, verify, edit, |run.rounds|);
  }

  /**
   The run accepts exactly when one of the allowed revisions passes, and then ends with the first that does.
   Otherwise it reviews as often as allowed. Its final answer is the one it reviewed last, except when the
   limit is below one: then a failed draft is revised once more and nobody reviews the result.
   */
  method RunCyclone(draft: Execution, verify: Verifier, edit: Editor, maxRounds: int) returns (run: Run)
    ensures 1 <= |run.rounds| <= RoundLimit(maxRounds)
    ensures forall k | 0 <= k < |run.rounds| :: run.rounds[k] == Review(draft, verify, edit, k)
    ensures forall k | 0 <= k < |run.rounds| - 1 :: !run.rounds[k].pass
    ensures run.accepted <==> run.rounds[|run.rounds| - 1].pass
    ensures run.accepted <==> exists k: nat :: k < RoundLimit(maxRounds) && Passes(draft, verify, edit, k)
    ensures !run.accepted ==> |run.rounds| == RoundLimit(maxRounds)
    ensures var edits: nat := if run.accepted || maxRounds >= 1 then |run.rounds| - 1 else |run.rounds|;
      && run.final == Revision(draft, verify, edit, edits)
      && run.totalSeconds == Seconds(draft, verify, edit, |run.rounds|, edits)
    ensures |run.rounds| <= (if maxRounds < 1 then 1 else maxRounds) && run.draft == draft
  {
    var current, accepted, rounds, total := draft, false, [], draft.seconds;
    var index: nat := 0;
    while index < RoundLimit(maxRounds)
      invariant index <= RoundLimit(maxRounds) && |rounds| == index && !accepted
      invariant index == RoundLimit(maxRounds) ==> index > 0 && maxRounds < 1
      invariant forall k: nat | k < index :: rounds[k] == Review(draft, verify, edit, k) && !Passes(draft, verify, edit, k)
      invariant current == Revision(draft, verify, edit, index)
      invariant total == Seconds(draft, verify, edit, index, index)
    {
      var steering := verify(current.content, index);
      rounds := rounds + [steering];
      OneMoreReview(draft, verify, edit, index, index);
      total := total + steering.seconds;
      if steering.pass {
        assert Passes(draft, verify, edit, index);
        accepted := true;
        break;
      }
      if index == maxRounds - 1 {
        break;
      }
      var revised := edit(current.content, steering, index);
      total := total + revised.seconds;
      current := revised;
      index := index + 1;
    }
    run := Run(current, draft, rounds, accepted, total);
  }
}
