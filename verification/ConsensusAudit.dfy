/**
 The audit of a consensus decision (astrata/audit/consensus.py) and the review of that audit
 (astrata/audit/meta_review.py). The decision compares all answers, blank ones too;
 the audit leaves blank answers out.
 */
module ConsensusAudit {
  import opened Consensus
  import opened Sequences
  import opened Text

  datatype Severity = Low | Moderate | High | Critical

  datatype FindingKind =
    | TooFewReviews | ApprovedDespiteDisagreement | DisagreementDespiteAgreement | NoEvidence | ReusedWorker
    | MissingSubject | ResolvedWithFindings | OpenWithoutFindings | ResolvedDespiteSevere

  datatype Finding = Finding(severity: Severity, kind: FindingKind)

  datatype ReviewStatus = Open | Resolved

  datatype Review = Review(subjectKind: string, subjectId: string, status: ReviewStatus, findings: seq<Finding>)

  predicate Severe(f: Finding) {
    f.severity == High || f.severity == Critical
  }

  ghost predicate AnySevere(review: Review) {
    exists f :: f in review.findings && Severe(f)
  }

  /** The different answers of the successful workers, blank ones left out. */
  function DistinctAnswers(results: seq<Result>): set<string> {
    set r | r in Applied(results) && Normalized(r.response) != "" :: Normalized(r.response)
  }

  function Reuses(workerIds: seq<string>): bool {
    |set w | w in workerIds| != |workerIds|
  }

  function Audit(task: string, outcome: Outcome, required: int, results: seq<Result>, workerIds: seq<string>): Review {
    var successful, distinct := |Applied(results)|, |DistinctAnswers(results)|;
    var findings :=
      (if outcome == Approved && successful < Required(required) then [Finding(Critical, TooFewReviews)] else [])
      + (if outcome == Approved && distinct > 1 then [Finding(Critical, ApprovedDespiteDisagreement)] else [])
      + (if outcome == Disagreement && successful >= Required(required) && distinct <= 1
         then [Finding(High, DisagreementDespiteAgreement)] else [])
      + (if outcome != Collecting && results == [] then [Finding(High, NoEvidence)] else [])
      + (if |workerIds| >= 2 && Reuses(workerIds) then [Finding(Moderate, ReusedWorker)] else []);
    Review("consensus_judgment", task, if findings == [] then Resolved else Open, findings)
  }

  function MetaReview(review: Review, id: string): Review {
    var findings :=
      (if Strip(review.subjectKind) == "" || Strip(review.subjectId) == "" then [Finding(High, MissingSubject)] else [])
      + (if review.status == Resolved && review.findings != [] then [Finding(High, ResolvedWithFindings)] else [])
      + (if review.status == Open && review.findings == [] then [Finding(Moderate, OpenWithoutFindings)] else [])
      + (if review.status == Resolved && (exists f | f in review.findings :: Severe(f))
         then [Finding(Critical, ResolvedDespiteSevere)] else []);
    Review("audit_review", id, if findings == [] then Resolved else Open, findings)
  }

  // ---------- the audit of decisions that were really made ----------

  predicate BlankAnswer(r: Result) {
    Blank(r.response)
  }

  lemma TwoDistinct(answers: set<string>, a: string, b: string)
    requires a in answers && b in answers && a != b
    ensures |answers| > 1
  {
    assert {a, b} <= answers && answers == {a, b} + (answers - {a, b});
  }

  lemma AtMostOne(answers: set<string>)
    requires forall a, b | a in answers && b in answers :: a == b
    ensures |answers| <= 1
  {
    if a :| a in answers {
      assert answers == {a};
    }
  }

  /** Some answers are blank, some are not, and those that are not agree. */
  ghost predicate OnlyBlanksDisagree(successful: seq<Result>) {
    && (exists r :: r in successful && BlankAnswer(r))
    && (exists r :: r in successful && !BlankAnswer(r))
    && (forall r, s | r in successful && s in successful && !BlankAnswer(r) && !BlankAnswer(s) :: SameAnswer(r, s))
  }

  lemma DistinctExactly(results: seq<Result>)
    ensures |DistinctAnswers(results)| > 1
      <==> exists r, s :: r in Applied(results) && s in Applied(results) && !BlankAnswer(r) && !BlankAnswer(s) && !SameAnswer(r, s)
  {
    var answers := DistinctAnswers(results);
    forall r: Result ensures Normalized(r.response) == "" <==> BlankAnswer(r) {
      NormalizedBlank(r.response);
    }
    if r, s :| r in Applied(results) && s in Applied(results) && !BlankAnswer(r) && !BlankAnswer(s) && !SameAnswer(r, s) {
      TwoDistinct(answers, Normalized(r.response), Normalized(s.response));
    } else {
      AtMostOne(answers);
    }
  }

  lemma AgreementExactly(results: seq<Result>, required: int)
    requires |Applied(results)| == Required(required)
    ensures FirstAgree(Applied(results), Required(required))
      <==> forall r, s | r in Applied(results) && s in Applied(results) :: SameAnswer(r, s)
  {
    var successful := Applied(results);
    assert successful[0] in successful;
    forall i | 0 <= i < |successful| ensures successful[i] in successful {
    }
  }

  lemma MixedBlankDisagrees(results: seq<Result>, required: int)
    requires |Applied(results)| == Required(required)
    ensures Decide(results, required) == Disagreement && |DistinctAnswers(results)| <= 1 <==> OnlyBlanksDisagree(Applied(results))
  {
    var successful := Applied(results);
    DistinctExactly(results);
    AgreementExactly(results, required);
    forall r, s | BlankAnswer(r) ensures SameAnswer(r, s) <==> BlankAnswer(s) {
      NormalizedBlank(r.response);
      NormalizedBlank(s.response);
    }
  }

  /**
   The audit of a decision among no more workers than required has a high or critical finding exactly
   when the required answers are in and differ only in that some of them are blank.
   */
  lemma DecisionFlaggedExactly(task: string, results: seq<Result>, required: int, workerIds: seq<string>)
    requires |Applied(results)| <= Required(required)
    ensures AnySevere(Audit(task, Decide(results, required), required, results, workerIds))
      <==> |Applied(results)| == Required(required) && OnlyBlanksDisagree(Applied(results))
  {
    var outcome := Decide(results, required);
    SevereExactly(task, outcome, required, results, workerIds);
    if |Applied(results)| == Required(required) {
      MixedBlankDisagrees(results, required);
      if outcome == Approved {
        DistinctExactly(results);
        AgreementExactly(results, required);
      }
    }
  }

  /** So a correct disagreement between a blank answer and any other one is flagged as a wrong one. */
  lemma BlankAnswerFlagged(task: string, v: nat, w: nat, answer: string, workerIds: seq<string>)
    requires !Blank(answer)
    ensures var results := [Result(v, true, ""), Result(w, true, answer)];
      && Decide(results, 2) == Disagreement
      && AnySevere(Audit(task, Disagreement, 2, results, workerIds))
  {
    var blank, other := Result(v, true, ""), Result(w, true, answer);
    var results := [blank, other];
    assert results[..1] == [blank] && [blank][..0] == [];
    assert Applied([blank]) == [blank] && Applied(results) == [blank, other];
    assert BlankAnswer(blank) && !BlankAnswer(other);
    NormalizedBlank(answer);
    assert !SameAnswer(results[1], results[0]);
    DecisionFlaggedExactly(task, results, 2, workerIds);
  }

  /** Which decisions, right or wrong, the audit objects to. */
  lemma SevereExactly(task: string, outcome: Outcome, required: int, results: seq<Result>, workerIds: seq<string>)
    ensures AnySevere(Audit(task, outcome, required, results, workerIds)) <==>
      || (outcome == Approved && (|Applied(results)| < Required(required) || |DistinctAnswers(results)| > 1))
      || (outcome == Disagreement && |Applied(results)| >= Required(required) && |DistinctAnswers(results)| <= 1)
      || (outcome == Disagreement && results == [])
  {
    var findings := Audit(task, outcome, required, results, workerIds).findings;
    assert Severe(Finding(Critical, TooFewReviews)) && Severe(Finding(Critical, ApprovedDespiteDisagreement));
    assert Severe(Finding(High, DisagreementDespiteAgreement)) && Severe(Finding(High, NoEvidence));
    if outcome == Approved && |Applied(results)| < Required(required) {
      assert Finding(Critical, TooFewReviews) in findings;
    } else if outcome == Approved && |DistinctAnswers(results)| > 1 {
      assert Finding(Critical, ApprovedDespiteDisagreement) in findings;
    } else if outcome == Disagreement && |Applied(results)| >= Required(required) && |DistinctAnswers(results)| <= 1 {
      assert Finding(High, DisagreementDespiteAgreement) in findings;
    } else if outcome == Disagreement && results == [] {
      assert Finding(High, NoEvidence) in findings;
    }
  }

  lemma RepeatsShrink(ids: seq<string>, i: nat, j: nat)
    requires i < j < |ids| && ids[i] == ids[j]
    ensures |set w | w in ids| < |ids|
  {
    var rest := ids[..j] + ids[j + 1..];
    assert rest[i] == ids[i];
    forall w ensures w in ids <==> w in rest {
      if w in ids {
        var k :| 0 <= k < |ids| && ids[k] == w;
        assert w == if k < j then rest[k] else if k == j then rest[i] else rest[k - 1];
      }
    }
    assert (set w | w in ids) == set w | w in rest;
    AtMostLength(rest);
  }

  lemma {:induction false} AtMostLength(ids: seq<string>)
    ensures |set w | w in ids| <= |ids|
  {
    if ids != [] {
      var init, last := ids[..|ids| - 1], ids[|ids| - 1];
      AtMostLength(init);
      assert ids == init + [last];
      assert (set w | w in ids) == (set w | w in init) + {last};
    }
  }

  /** The audit reports a reused worker, its only moderate finding, exactly when two asked lanes have one worker id. */
  lemma ReuseReportedExactly(task: string, outcome: Outcome, required: int, results: seq<Result>, workerIds: seq<string>)
    ensures (exists f :: f in Audit(task, outcome, required, results, workerIds).findings && f.severity == Moderate)
      <==> exists i, j :: 0 <= i < j < |workerIds| && workerIds[i] == workerIds[j]
  {
    var findings := Audit(task, outcome, required, results, workerIds).findings;
    if i, j :| 0 <= i < j < |workerIds| && workerIds[i] == workerIds[j] {
      RepeatsShrink(workerIds, i, j);
      assert Finding(Moderate, ReusedWorker) in findings;
    } else {
      DistinctSize(workerIds);
    }
  }

  /** Without blank answers the audit never objects, whatever was delivered, how often and in what order. */
  lemma RunsAuditClean(task: string, deliveries: seq<Result>, workers: set<nat>, required: int, workerIds: seq<string>)
    requires forall r | r in deliveries :: r.worker in workers && !BlankAnswer(r)
    requires |workers| <= Required(required)
    ensures !AnySevere(Audit(task, Decide(Collected(deliveries), required), required, Collected(deliveries), workerIds))
  {
    SuccessfulAreWorkers(deliveries, workers);
    SuccessfulCount(deliveries);
    CollectedIsLatest(deliveries);
    LatestFromDeliveries(deliveries);
    AppliedExactly(Collected(deliveries));
    DecisionFlaggedExactly(task, Collected(deliveries), required, workerIds);
  }

  /** The review of a consensus audit is clean exactly when the task has an id. */
  lemma AuditsReviewClean(task: string, outcome: Outcome, required: int, results: seq<Result>, workerIds: seq<string>, id: string)
    ensures MetaReview(Audit(task, outcome, required, results, workerIds), id).status == Resolved <==> Strip(task) != ""
  {
    assert StripLeft("consensus_judgment") == "consensus_judgment" && Strip("consensus_judgment") == "consensus_judgment";
  }

  /** A review in general passes exactly when it names its subject and is resolved just when it has no findings. */
  lemma CoherentExactly(review: Review, id: string)
    ensures MetaReview(review, id).status == Resolved
      <==> Strip(review.subjectKind) != "" && Strip(review.subjectId) != "" && (review.status == Resolved <==> review.findings == [])
  {
    if review.findings == [] {
      assert forall f :: f !in review.findings;
    }
  }

  // ---------- each finding ----------

  /** Two successful workers gave different answers, neither of them blank. */
  ghost predicate TwoDiffer(results: seq<Result>) {
    exists r, s :: r in Applied(results) && s in Applied(results) && !Blank(r.response) && !Blank(s.response)
      && Spaced(Words(Lower(r.response))) != Spaced(Words(Lower(s.response)))
  }

  lemma TwoDifferExactly(results: seq<Result>)
    ensures |DistinctAnswers(results)| > 1 <==> TwoDiffer(results)
  {
    DistinctExactly(results);
    forall r: Result ensures Normalized(r.response) == Spaced(Words(Lower(r.response))) {
      NormalizedExactly(r.response);
    }
    if r, s :| r in Applied(results) && s in Applied(results) && !BlankAnswer(r) && !BlankAnswer(s) && !SameAnswer(r, s) {
      assert TwoDiffer(results);
    }
    if TwoDiffer(results) {
      var r, s :| r in Applied(results) && s in Applied(results) && !Blank(r.response) && !Blank(s.response)
        && Spaced(Words(Lower(r.response))) != Spaced(Words(Lower(s.response)));
      assert !BlankAnswer(r) && !BlankAnswer(s) && !SameAnswer(r, s);
    }
  }

  /** Fewer than two successes, or fewer than required. */
  predicate TooFew(results: seq<Result>, required: int) {
    |Applied(results)| < 2 || |Applied(results)| < required
  }

  /** Exactly which findings an audit reports, and how severe they are. */
  lemma FindingsExactly(task: string, outcome: Outcome, required: int, results: seq<Result>, workerIds: seq<string>, f: Finding)
    ensures f in Audit(task, outcome, required, results, workerIds).findings <==>
      || (f == Finding(Critical, TooFewReviews) && outcome == Approved && TooFew(results, required))
      || (f == Finding(Critical, ApprovedDespiteDisagreement) && outcome == Approved && TwoDiffer(results))
      || (f == Finding(High, DisagreementDespiteAgreement) && outcome == Disagreement && !TooFew(results, required) && !TwoDiffer(results))
      || (f == Finding(High, NoEvidence) && outcome != Collecting && results == [])
      || (f == Finding(Moderate, ReusedWorker) && exists i, j :: 0 <= i < j < |workerIds| && workerIds[i] == workerIds[j])
    ensures Audit(task, outcome, required, results, workerIds).subjectId == task
    ensures Audit(task, outcome, required, results, workerIds).subjectKind == "consensus_judgment"
  {
    TwoDifferExactly(results);
    ReusesExactly(workerIds);
  }

  lemma ReusesExactly(workerIds: seq<string>)
    ensures |workerIds| >= 2 && Reuses(workerIds) <==> exists i, j :: 0 <= i < j < |workerIds| && workerIds[i] == workerIds[j]
  {
    if i, j :| 0 <= i < j < |workerIds| && workerIds[i] == workerIds[j] {
      RepeatsShrink(workerIds, i, j);
    } else {
      DistinctSize(workerIds);
    }
  }

  /** Exactly which findings the review of an audit reports. */
  lemma MetaFindingsExactly(review: Review, id: string, f: Finding)
    ensures f in MetaReview(review, id).findings <==>
      || (f == Finding(High, MissingSubject) && (Strip(review.subjectKind) == "" || Strip(review.subjectId) == ""))
      || (f == Finding(High, ResolvedWithFindings) && review.status == Resolved && review.findings != [])
      || (f == Finding(Moderate, OpenWithoutFindings) && review.status == Open && review.findings == [])
      || (f == Finding(Critical, ResolvedDespiteSevere) && review.status == Resolved
          && exists g :: g in review.findings && (g.severity == High || g.severity == Critical))
    ensures MetaReview(review, id).subjectKind == "audit_review" && MetaReview(review, id).subjectId == id
  {
    if g :| g in review.findings && (g.severity == High || g.severity == Critical) {
      assert Severe(g);
    }
  }

  /** No finding is reported twice, and a review is resolved exactly when it found nothing. */
  lemma StatusExactly(task: string, outcome: Outcome, required: int, results: seq<Result>, workerIds: seq<string>)
    ensures var review := Audit(task, outcome, required, results, workerIds);
      Distinct(review.findings) && (review.status == Resolved <==> review.findings == [])
  {
  }

  lemma MetaStatusExactly(review: Review, id: string)
    ensures var meta := MetaReview(review, id);
      Distinct(meta.findings) && (meta.status == Resolved <==> meta.findings == [])
  {
  }

  // ---------- the code that appends the findings ----------

  method ReviewConsensusJudgment(task: string, outcome: Outcome, required: int, results: seq<Result>, workerIds: seq<string>)
    returns (review: Review)
    ensures review == Audit(task, outcome, required, results, workerIds)
  {
    var findings: seq<Finding> := [];
    var successful := SuccessfulResults(results);
    var distinct := DistinctAnswers(results);
    if outcome == Approved && |successful| < Required(required) {
      findings := findings + [Finding(Critical, TooFewReviews)];
    }
    if outcome == Approved && |distinct| > 1 {
      findings := findings + [Finding(Critical, ApprovedDespiteDisagreement)];
    }
    if outcome == Disagreement && |successful| >= Required(required) && |distinct| <= 1 {
      findings := findings + [Finding(High, DisagreementDespiteAgreement)];
    }
    if outcome != Collecting && results == [] {
      findings := findings + [Finding(High, NoEvidence)];
    }
    if |workerIds| >= 2 && Reuses(workerIds) {
      findings := findings + [Finding(Moderate, ReusedWorker)];
    }
    review := Review("consensus_judgment", task, Open, findings);
    review := review.(status := if findings == [] then Resolved else Open);
  }

  method ReviewAuditReview(review: Review, id: string) returns (meta: Review)
    ensures meta == MetaReview(review, id)
  {
    var findings: seq<Finding> := [];
    if Strip(review.subjectKind) == "" || Strip(review.subjectId) == "" {
      findings := findings + [Finding(High, MissingSubject)];
    }
    if review.status == Resolved && review.findings != [] {
      findings := findings + [Finding(High, ResolvedWithFindings)];
    }
    if review.status == Open && review.findings == [] {
      findings := findings + [Finding(Moderate, OpenWithoutFindings)];
    }
    if review.status == Resolved && (exists f | f in review.findings :: Severe(f)) {
      findings := findings + [Finding(Critical, ResolvedDespiteSevere)];
    }
    meta := Review("audit_review", id, Open, findings);
    meta := meta.(status := if findings == [] then Resolved else Open);
  }
}
