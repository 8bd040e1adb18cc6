/**
 Pairwise ratings per domain (astrata/eval/ratings.py). Ratings are real numbers and the
 expected score, a logistic curve in the source, is any number strictly between 0 and 1.
 */
module Ratings {
  import opened Options

  type Id = nat

  const DEFAULT_RATING := 1500.0
  const K_FACTOR := 32.0

  datatype Entry = Entry(id: Id, rating: real, matches: nat)

  /** A domain's entries in the order in which their variants first appeared. */
  type Bucket = seq<Entry>

  datatype Matchup = Matchup(domain: Id, left: Id, right: Id, leftScore: real, expectedLeft: real)

  predicate Sound(m: Matchup) {
    0.0 < m.expectedLeft < 1.0
  }

  function Find(bucket: Bucket, id: Id): Option<Entry> {
    if bucket == [] then None
    else if bucket[|bucket| - 1].id == id then Some(bucket[|bucket| - 1])
    else Find(bucket[..|bucket| - 1], id)
  }

  /** A known variant's entry is replaced where it stands, a new one is added at the end. */
  function Put(bucket: Bucket, entry: Entry): Bucket {
    if Find(bucket, entry.id).None? then bucket + [entry]
    else
      var n := |bucket| - 1;
      if bucket[n].id == entry.id then bucket[..n] + [entry] else Put(bucket[..n], entry) + [bucket[n]]
  }

  /** A stored rating of exactly zero counts as missing. */
  function Reread(rating: real): real {
    if rating == 0.0 then DEFAULT_RATING else rating
  }

  function Read(bucket: Bucket, id: Id): Entry {
    match Find(bucket, id)
    case None => Entry(id, DEFAULT_RATING, 0)
    case Some(e) => Entry(id, Reread(e.rating), e.matches)
  }

  function Bounded(score: real): real {
    if score < 0.0 then 0.0 else if score > 1.0 then 1.0 else score
  }

  /** What the left side gains. */
  function Gain(m: Matchup): real {
    K_FACTOR * (Bounded(m.leftScore) - m.expectedLeft)
  }

  function Won(e: Entry, gain: real): Entry {
    Entry(e.id, e.rating + gain, e.matches + 1)
  }

  /** Both new entries are computed from the bucket as it was. */
  function Played(bucket: Bucket, m: Matchup): Bucket {
    Put(Put(bucket, Won(Read(bucket, m.left), Gain(m))), Won(Read(bucket, m.right), -Gain(m)))
  }

  // ---------- sums over a bucket ----------

  function RatingSum(bucket: Bucket): real {
    if bucket == [] then 0.0 else RatingSum(bucket[..|bucket| - 1]) + bucket[|bucket| - 1].rating
  }

  function MatchSum(bucket: Bucket): nat {
    if bucket == [] then 0 else MatchSum(bucket[..|bucket| - 1]) + bucket[|bucket| - 1].matches
  }

  /** How far the sum of the ratings is from 1500 for each variant. */
  function Excess(bucket: Bucket): real {
    RatingSum(bucket) - DEFAULT_RATING * (|bucket| as real)
  }

  function ExcessOf(e: Option<Entry>): real {
    match e case None => 0.0 case Some(x) => x.rating - DEFAULT_RATING
  }

  function MatchesOf(e: Option<Entry>): nat {
    match e case None => 0 case Some(x) => x.matches
  }

  lemma FindAppended(bucket: Bucket, e: Entry, id: Id)
    ensures Find(bucket + [e], id) == if e.id == id then Some(e) else Find(bucket, id)
  {
    assert (bucket + [e])[..|bucket|] == bucket;
  }

  lemma {:induction false} FindPut(bucket: Bucket, entry: Entry, id: Id)
    ensures Find(Put(bucket, entry), id) == if id == entry.id then Some(entry) else Find(bucket, id)
  {
    if Find(bucket, entry.id).None? {
      FindAppended(bucket, entry, id);
    } else {
      var n := |bucket| - 1;
      if bucket[n].id == entry.id {
        FindAppended(bucket[..n], entry, id);
      } else {
        FindPut(bucket[..n], entry, id);
        FindAppended(Put(bucket[..n], entry), bucket[n], id);
      }
    }
  }

  lemma Appended(bucket: Bucket, e: Entry)
    ensures Excess(bucket + [e]) == Excess(bucket) + e.rating - DEFAULT_RATING
    ensures MatchSum(bucket + [e]) == MatchSum(bucket) + e.matches
  {
    assert (bucket + [e])[..|bucket|] == bucket;
  }

  /** Putting an entry moves the sums by the difference to what it replaces. */
  lemma {:induction false} PutMovesSums(bucket: Bucket, entry: Entry)
    ensures Excess(Put(bucket, entry)) == Excess(bucket) - ExcessOf(Find(bucket, entry.id)) + entry.rating - DEFAULT_RATING
    ensures MatchSum(Put(bucket, entry)) == MatchSum(bucket) - MatchesOf(Find(bucket, entry.id)) + entry.matches
  {
    if Find(bucket, entry.id).None? {
      Appended(bucket, entry);
    } else {
      var n := |bucket| - 1;
      assert bucket == bucket[..n] + [bucket[n]];
      Appended(bucket[..n], bucket[n]);
      if bucket[n].id == entry.id {
        Appended(bucket[..n], entry);
      } else {
        PutMovesSums(bucket[..n], entry);
        Appended(Put(bucket[..n], entry), bucket[n]);
      }
    }
  }

  predicate StoredZero(bucket: Bucket, id: Id) {
    var e := Find(bucket, id);
    e.Some? && e.value.rating == 0.0
  }

  /** What rereading the variant's rating adds. */
  function ZeroLift(bucket: Bucket, id: Id): real {
    if StoredZero(bucket, id) then DEFAULT_RATING else 0.0
  }

  /** How far a matchup moves the sum: a self-match loses the left side's update. */
  function Drift(bucket: Bucket, m: Matchup): real {
    if m.left == m.right then ZeroLift(bucket, m.left) - Gain(m)
    else ZeroLift(bucket, m.left) + ZeroLift(bucket, m.right)
  }

  lemma PlayedMovesSums(bucket: Bucket, m: Matchup)
    ensures Excess(Played(bucket, m)) == Excess(bucket) + Drift(bucket, m)
    ensures MatchSum(Played(bucket, m)) == MatchSum(bucket) + if m.left == m.right then 1 else 2
  {
    var left := Won(Read(bucket, m.left), Gain(m));
    var once := Put(bucket, left);
    PutMovesSums(bucket, left);
    FindPut(bucket, left, m.right);
    PutMovesSums(once, Won(Read(bucket, m.right), -Gain(m)));
  }

  /** Exactly when a matchup keeps the sum at 1500 for each variant. */
  lemma SumKeptExactly(bucket: Bucket, m: Matchup)
    ensures Excess(Played(bucket, m)) == Excess(bucket) <==>
      if m.left == m.right then Gain(m) == ZeroLift(bucket, m.left)
      else !StoredZero(bucket, m.left) && !StoredZero(bucket, m.right)
  {
    PlayedMovesSums(bucket, m);
  }

  lemma GainBelow(m: Matchup)
    requires Sound(m)
    ensures -32.0 < Gain(m) < 32.0
  {
    var left := Bounded(m.leftScore);
    assert -1.0 < left - m.expectedLeft < 1.0;
  }

  /** A matchup moves a rating by less than 32 from what was read, and touches nobody else. */
  lemma MovesLessThanK(bucket: Bucket, m: Matchup, id: Id)
    requires Sound(m)
    ensures id == m.left || id == m.right ==>
      var r := Find(Played(bucket, m), id);
      r.Some? && -32.0 < r.value.rating - Read(bucket, id).rating < 32.0
    ensures id != m.left && id != m.right ==> Find(Played(bucket, m), id) == Find(bucket, id)
  {
    GainBelow(m);
    PlayedEntries(bucket, m);
    if id != m.left && id != m.right {
      var left, right := Won(Read(bucket, m.left), Gain(m)), Won(Read(bucket, m.right), -Gain(m));
      FindPut(bucket, left, id);
      FindPut(Put(bucket, left), right, id);
    }
  }

  /** The side that does better than expected rises, and the other one falls by the same amount. */
  lemma BetterThanExpectedRises(bucket: Bucket, m: Matchup)
    requires Sound(m) && m.left != m.right
    ensures var left, right := Find(Played(bucket, m), m.left), Find(Played(bucket, m), m.right);
      && left.Some? && right.Some?
      && (left.value.rating > Read(bucket, m.left).rating <==> Bounded(m.leftScore) > m.expectedLeft)
      && left.value.rating - Read(bucket, m.left).rating == Read(bucket, m.right).rating - right.value.rating
      && left.value.matches == Read(bucket, m.left).matches + 1
      && right.value.matches == Read(bucket, m.right).matches + 1
  {
    var left, right := Won(Read(bucket, m.left), Gain(m)), Won(Read(bucket, m.right), -Gain(m));
    FindPut(Put(bucket, left), right, m.left);
    FindPut(bucket, left, m.left);
    FindPut(Put(bucket, left), right, m.right);
  }

  /** What is read for a variant: 1500 and no matches when it is new, and 1500 again for a rating stored as exactly zero. */
  lemma ReadExactly(bucket: Bucket, id: Id)
    ensures Read(bucket, id).id == id
    ensures Find(bucket, id).None? ==> Read(bucket, id).rating == 1500.0 && Read(bucket, id).matches == 0
    ensures Find(bucket, id).Some? ==>
      && Read(bucket, id).matches == Find(bucket, id).value.matches
      && Read(bucket, id).rating == if Find(bucket, id).value.rating == 0.0 then 1500.0 else Find(bucket, id).value.rating
  {
  }

  /** What a score counts: at least nothing and at most everything. */
  predicate Counts(score: real, counted: real) {
    if score <= 0.0 then counted == 0.0 else if score >= 1.0 then counted == 1.0 else counted == score
  }

  /** What the left side gains, and that the right side loses as much. */
  lemma GainExactly(m: Matchup, left: real)
    requires Counts(m.leftScore, left)
    ensures Gain(m) == 32.0 * (left - m.expectedLeft) && -Gain(m) == 32.0 * ((1.0 - left) - (1.0 - m.expectedLeft))
  {
  }

  /** Which entries a matchup stores: in a self-match only the right side's. */
  lemma PlayedEntries(bucket: Bucket, m: Matchup)
    ensures Find(Played(bucket, m), m.right) == Some(Won(Read(bucket, m.right), -Gain(m)))
    ensures m.left != m.right ==> Find(Played(bucket, m), m.left) == Some(Won(Read(bucket, m.left), Gain(m)))
  {
    var won, lost := Won(Read(bucket, m.left), Gain(m)), Won(Read(bucket, m.right), -Gain(m));
    FindPut(Put(bucket, won), lost, m.left);
    FindPut(bucket, won, m.left);
    FindPut(Put(bucket, won), lost, m.right);
  }

  /** The new entries: each side moves by 32 times what it did better than expected; in a self-match only the right side's move is kept. */
  lemma NewRatingsExactly(bucket: Bucket, m: Matchup, left: real)
    requires Counts(m.leftScore, left)
    ensures var l, r := Read(bucket, m.left), Read(bucket, m.right);
      && Find(Played(bucket, m), m.right) == Some(Entry(m.right, r.rating + 32.0 * ((1.0 - left) - (1.0 - m.expectedLeft)), r.matches + 1))
      && (m.left != m.right ==>
            Find(Played(bucket, m), m.left) == Some(Entry(m.left, l.rating + 32.0 * (left - m.expectedLeft), l.matches + 1)))
  {
    GainExactly(m, left);
    PlayedEntries(bucket, m);
  }

  /** The variants of a bucket in their order. */
  function Variants(bucket: Bucket): seq<Id> {
    if bucket == [] then [] else Variants(bucket[..|bucket| - 1]) + [bucket[|bucket| - 1].id]
  }

  lemma VariantsAppended(bucket: Bucket, e: Entry)
    ensures Variants(bucket + [e]) == Variants(bucket) + [e.id]
  {
    assert (bucket + [e])[..|bucket|] == bucket;
  }

  /** A known variant keeps its place and a new one goes to the end, so that the order is that of first appearance. */
  lemma {:induction false} PutKeepsPlaces(bucket: Bucket, entry: Entry)
    ensures Variants(Put(bucket, entry)) == if Find(bucket, entry.id).Some? then Variants(bucket) else Variants(bucket) + [entry.id]
  {
    if Find(bucket, entry.id).None? {
      VariantsAppended(bucket, entry);
    } else {
      var n := |bucket| - 1;
      assert bucket == bucket[..n] + [bucket[n]];
      VariantsAppended(bucket[..n], bucket[n]);
      if bucket[n].id == entry.id {
        VariantsAppended(bucket[..n], entry);
      } else {
        PutKeepsPlaces(bucket[..n], entry);
        VariantsAppended(Put(bucket[..n], entry), bucket[n]);
      }
    }
  }

  // ---------- runs over all domains ----------

  type Domains = map<Id, Bucket>

  function BucketOf(domains: Domains, d: Id): Bucket {
    if d in domains then domains[d] else []
  }

  function Recorded(domains: Domains, m: Matchup): Domains {
    domains[m.domain := Played(BucketOf(domains, m.domain), m)]
  }

  function AfterAll(ms: seq<Matchup>): Domains {
    if ms == [] then map[] else Recorded(AfterAll(ms[..|ms| - 1]), ms[|ms| - 1])
  }

  /** The matchups of one domain. */
  function Within(ms: seq<Matchup>, d: Id): seq<Matchup> {
    if ms == [] then []
    else Within(ms[..|ms| - 1], d) + (if ms[|ms| - 1].domain == d then [ms[|ms| - 1]] else [])
  }

  function PlayedAll(ms: seq<Matchup>): Bucket {
    if ms == [] then [] else Played(PlayedAll(ms[..|ms| - 1]), ms[|ms| - 1])
  }

  /** A domain's ratings depend on its own matchups only. */
  lemma {:induction false} DomainsAreIndependent(ms: seq<Matchup>, d: Id)
    ensures BucketOf(AfterAll(ms), d) == PlayedAll(Within(ms, d))
  {
    if ms != [] {
      var init, last := ms[..|ms| - 1], ms[|ms| - 1];
      DomainsAreIndependent(init, d);
      var own := Within(init, d);
      if last.domain == d {
        assert (own + [last])[..|own|] == own;
      } else {
        assert own + [] == own;
      }
    }
  }

  function Drifts(ms: seq<Matchup>): real {
    if ms == [] then 0.0 else Drifts(ms[..|ms| - 1]) + Drift(PlayedAll(ms[..|ms| - 1]), ms[|ms| - 1])
  }

  function SelfMatches(ms: seq<Matchup>): nat {
    if ms == [] then 0 else SelfMatches(ms[..|ms| - 1]) + if ms[|ms| - 1].left == ms[|ms| - 1].right then 1 else 0
  }

  lemma {:induction false} SumsOfRun(ms: seq<Matchup>)
    ensures Excess(PlayedAll(ms)) == Drifts(ms)
    ensures MatchSum(PlayedAll(ms)) == 2 * |ms| - SelfMatches(ms)
  {
    if ms != [] {
      SumsOfRun(ms[..|ms| - 1]);
      PlayedMovesSums(PlayedAll(ms[..|ms| - 1]), ms[|ms| - 1]);
    }
  }

  /** Distinct variants, neither of them stored with a rating of exactly zero. */
  ghost predicate Fair(ms: seq<Matchup>, i: nat)
    requires i < |ms|
  {
    var before, m := PlayedAll(ms[..i]), ms[i];
    m.left != m.right && !StoredZero(before, m.left) && !StoredZero(before, m.right)
  }

  lemma {:induction false} FairNeverDrifts(ms: seq<Matchup>)
    requires forall i | 0 <= i < |ms| :: Fair(ms, i)
    ensures Drifts(ms) == 0.0 && SelfMatches(ms) == 0
  {
    if ms != [] {
      var n := |ms| - 1;
      forall i | 0 <= i < n ensures Fair(ms[..n], i) {
        assert ms[..n][..i] == ms[..i] && Fair(ms, i);
      }
      FairNeverDrifts(ms[..n]);
      assert Fair(ms, n);
    }
  }

  /** In a run of fair matchups the ratings sum to 1500 for each variant, and the match counts to twice the matchups. */
  lemma FairRunsConserve(ms: seq<Matchup>, d: Id)
    requires forall i | 0 <= i < |Within(ms, d)| :: Fair(Within(ms, d), i)
    ensures var bucket := BucketOf(AfterAll(ms), d);
      && RatingSum(bucket) == DEFAULT_RATING * (|bucket| as real)
      && MatchSum(bucket) == 2 * |Within(ms, d)|
  {
    DomainsAreIndependent(ms, d);
    SumsOfRun(Within(ms, d));
    FairNeverDrifts(Within(ms, d));
  }

  /** Ratings of distinct variants only ever drift upwards, by 1500 each time a zero is read again. */
  lemma {:induction false} DriftCountsZeros(ms: seq<Matchup>)
    requires forall i | 0 <= i < |ms| :: ms[i].left != ms[i].right
    ensures Excess(PlayedAll(ms)) == DEFAULT_RATING * (ZeroReads(ms) as real)
  {
    SumsOfRun(ms);
    if ms != [] {
      DriftCountsZeros(ms[..|ms| - 1]);
      SumsOfRun(ms[..|ms| - 1]);
    }
  }

  /** How often a rating stored as exactly zero was read. */
  function ZeroReads(ms: seq<Matchup>): nat {
    if ms == [] then 0
    else
      var before, m := PlayedAll(ms[..|ms| - 1]), ms[|ms| - 1];
      ZeroReads(ms[..|ms| - 1])
      + (if StoredZero(before, m.left) then 1 else 0)
      + (if StoredZero(before, m.right) then 1 else 0)
  }

  // ---------- the store ----------

  const RECENT_LIMIT := 200

  class RatingStore {
    var domains: Domains
    var recent: seq<Matchup>

    constructor ()
      ensures domains == map[] && recent == []
    {
      domains, recent := map[], [];
    }

    method RecordMatchup(m: Matchup) returns (left: Entry, right: Entry)
      modifies this
      ensures domains == Recorded(old(domains), m)
      ensures left == Won(Read(BucketOf(old(domains), m.domain), m.left), Gain(m))
      ensures right == Won(Read(BucketOf(old(domains), m.domain), m.right), -Gain(m))
      ensures var all := old(recent) + [m.(leftScore := Bounded(m.leftScore))];
        recent == if |all| > 200 then all[|all| - 200..] else all
    {
      var bucket := if m.domain in domains then domains[m.domain] else [];
      left, right := Read(bucket, m.left), Read(bucket, m.right);
      ghost var before, l, r := bucket, left, right;
      var expectedRight := 1.0 - m.expectedLeft;
      var score := Bounded(m.leftScore);
      GainExactly(m, score);
      left := left.(rating := left.rating + K_FACTOR * (score - m.expectedLeft));
      right := right.(rating := right.rating + K_FACTOR * (1.0 - score - expectedRight));
      left := left.(matches := left.matches + 1);
      right := right.(matches := right.matches + 1);
      assert left == Won(l, Gain(m)) && right == Won(r, -Gain(m));
      bucket := Put(bucket, left);
      bucket := Put(bucket, right);
      domains := domains[m.domain := bucket];
      recent := recent + [m.(leftScore := score)];
      if |recent| > RECENT_LIMIT {
        recent := recent[|recent| - RECENT_LIMIT..];
      }
    }

    /** The first of the best among the variants with enough matches. */
    method GetDomainLeader(domain: Id, minMatches: int) returns (leader: Option<Id>)
      ensures leader.None? <==> forall e | e in BucketOf(domains, domain) :: e.matches < minMatches
      ensures leader.Some? ==> exists k :: LeaderAt(BucketOf(domains, domain), minMatches, k) && BucketOf(domains, domain)[k].id == leader.value
    {
      var bucket := if domain in domains then domains[domain] else [];
      leader := None;
      var bestRating := 0.0;
      ghost var best := 0;
      for i := 0 to |bucket|
        invariant leader.None? <==> forall k | 0 <= k < i :: bucket[k].matches < minMatches
        invariant leader.Some? ==> best < i && bestRating == Reread(bucket[best].rating)
        invariant leader.Some? ==> LeaderAt(bucket[..i], minMatches, best) && bucket[best].id == leader.value
      {
        var e := bucket[i];
        if e.matches >= minMatches {
          var rating := Reread(e.rating);
          if leader.None? || rating > bestRating {
            leader, bestRating, best := Some(e.id), rating, i;
          }
        }
      }
      assert bucket[..|bucket|] == bucket;
    }
  }

  ghost predicate LeaderAt(bucket: Bucket, minMatches: int, k: int) {
    && 0 <= k < |bucket| && bucket[k].matches >= minMatches
    && forall j | 0 <= j < |bucket| && j != k && bucket[j].matches >= minMatches ::
         if j < k then Reread(bucket[j].rating) < Reread(bucket[k].rating)
         else Reread(bucket[j].rating) <= Reread(bucket[k].rating)
  }
}
