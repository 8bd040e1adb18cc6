/**
 Batching of small message tasks (`_collapse_batchable_message_candidates` and
 `_sync_batched_peer_tasks` in astrata/loop0/runner.py): one carrier stands for up to four
 members of its group, and its outcome is copied to them.
 */
module Batching {
  import opened Options
  import opened Sequences
  import opened TaskGraph

  /** The lane's sender, the task class and the completion type. */
  datatype BatchKey = BatchKey(sender: string, taskClass: string, completion: string)

  /** A task offered for selection; `batch` is absent when its policy does not allow batching. */
  datatype Candidate = Candidate(id: TaskId, created: nat, batch: Option<BatchKey>)

  datatype Entry = Alone(lead: Candidate) | Carrier(lead: Candidate, covered: seq<Candidate>)

  const BATCH_LIMIT := 4

  function Least(a: nat, b: nat): nat { if a < b then a else b }

  ghost predicate DistinctIds(cs: seq<Candidate>) {
    forall i, j | 0 <= i < j < |cs| :: cs[i].id != cs[j].id
  }

  function Covers(entry: Entry): seq<Candidate> {
    match entry
    case Alone(lead) => [lead]
    case Carrier(_, covered) => covered
  }

  function Passthrough(cs: seq<Candidate>): seq<Entry> {
    if cs == [] then []
    else
      var c := cs[|cs| - 1];
      Passthrough(cs[..|cs| - 1]) + (if c.batch.None? then [Alone(c)] else [])
  }

  function BatchPart(c: Candidate, key: BatchKey): seq<Candidate> {
    if c.batch == Some(key) then [c] else []
  }

  /** The candidates with the given key. */
  function Batch(cs: seq<Candidate>, key: BatchKey): seq<Candidate> {
    if cs == [] then [] else Batch(cs[..|cs| - 1], key) + BatchPart(cs[|cs| - 1], key)
  }

  /** The keys in the order in which they are first seen. */
  function Keys(cs: seq<Candidate>): seq<BatchKey> {
    if cs == [] then []
    else
      var c := cs[|cs| - 1];
      var before := Keys(cs[..|cs| - 1]);
      if c.batch.None? || c.batch.value in before then before else before + [c.batch.value]
  }

  /** Older first, ties by id. */
  predicate Before(a: Candidate, b: Candidate) {
    a.created < b.created || (a.created == b.created && a.id < b.id)
  }

  function Insert(c: Candidate, s: seq<Candidate>): seq<Candidate> {
    if s == [] || !Before(c, s[|s| - 1]) then s + [c] else Insert(c, s[..|s| - 1]) + [s[|s| - 1]]
  }

  function Sort(s: seq<Candidate>): seq<Candidate> {
    if s == [] then [] else Insert(s[|s| - 1], Sort(s[..|s| - 1]))
  }

  /** The group's members, oldest first. */
  function Line(cs: seq<Candidate>, key: BatchKey): seq<Candidate> {
    Sort(Batch(cs, key))
  }

  function EntryOf(ordered: seq<Candidate>): Entry
    requires ordered != []
  {
    if |ordered| < 2 then Alone(ordered[0]) else Carrier(ordered[0], ordered[..Least(BATCH_LIMIT, |ordered|)])
  }

  function Entries(cs: seq<Candidate>, keys: seq<BatchKey>): seq<Entry> {
    if keys == [] then []
    else
      var ordered := Line(cs, keys[|keys| - 1]);
      Entries(cs, keys[..|keys| - 1]) + (if ordered == [] then [] else [EntryOf(ordered)])
  }

  function Collapse(cs: seq<Candidate>): seq<Entry> {
    Passthrough(cs) + Entries(cs, Keys(cs))
  }

  // ---------- sorting ----------

  ghost predicate Ordered(s: seq<Candidate>) {
    forall i, j | 0 <= i < j < |s| :: Before(s[i], s[j])
  }

  lemma {:induction false} InsertKeeps(c: Candidate, s: seq<Candidate>)
    requires Ordered(s) && forall d | d in s :: d.id != c.id
    ensures Ordered(Insert(c, s)) && |Insert(c, s)| == |s| + 1
    ensures forall d :: d in Insert(c, s) <==> d == c || d in s
  {
    if s != [] && Before(c, s[|s| - 1]) {
      var init, last := s[..|s| - 1], s[|s| - 1];
      InsertKeeps(c, init);
      forall d | d in Insert(c, init) ensures Before(d, last) {
        if d != c {
          var i :| 0 <= i < |init| && init[i] == d;
          assert Before(s[i], s[|s| - 1]);
        }
      }
    } else {
      forall i | 0 <= i < |s| ensures Before(s[i], c) {
        assert i < |s| - 1 ==> Before(s[i], s[|s| - 1]);
        assert s[|s| - 1] in s;
      }
    }
  }

  lemma {:induction false} SortKeeps(s: seq<Candidate>)
    requires DistinctIds(s)
    ensures Ordered(Sort(s)) && |Sort(s)| == |s| && forall d :: d in Sort(s) <==> d in s
  {
    if s != [] {
      SortKeeps(s[..|s| - 1]);
      InsertKeeps(s[|s| - 1], Sort(s[..|s| - 1]));
    }
  }

  lemma LastIsLatest(s: seq<Candidate>, d: Candidate)
    requires Ordered(s) && d in s
    ensures d == s[|s| - 1] || Before(d, s[|s| - 1])
  {
    var i :| 0 <= i < |s| && s[i] == d;
  }

  /** An ordered list is determined by its members. */
  lemma {:induction false} OrderedUnique(a: seq<Candidate>, b: seq<Candidate>)
    requires Ordered(a) && Ordered(b) && forall d :: d in a <==> d in b
    ensures a == b
    decreases |a|
  {
    assert b != [] ==> b[|b| - 1] in b && b[|b| - 1] in a;
    if a != [] {
      assert a[|a| - 1] in b;
      LastIsLatest(a, b[|b| - 1]);
      LastIsLatest(b, a[|a| - 1]);
      var restA, restB := a[..|a| - 1], b[..|b| - 1];
      forall d ensures d in restA <==> d in restB {
        InitMembers(a, d);
        InitMembers(b, d);
      }
      OrderedUnique(restA, restB);
      assert a == restA + [a[|a| - 1]] && b == restB + [b[|b| - 1]];
    }
  }

  lemma InitMembers(s: seq<Candidate>, d: Candidate)
    requires Ordered(s) && s != []
    ensures d in s[..|s| - 1] <==> d in s && d != s[|s| - 1]
  {
    if d in s[..|s| - 1] {
      var i :| 0 <= i < |s| - 1 && s[i] == d;
      assert Before(s[i], s[|s| - 1]);
    }
  }

  // ---------- groups ----------

  lemma {:induction false} BatchContents(cs: seq<Candidate>, key: BatchKey)
    ensures forall c :: c in Batch(cs, key) <==> c in cs && c.batch == Some(key)
  {
    if cs != [] {
      var init := cs[..|cs| - 1];
      BatchContents(init, key);
      assert cs == init + [cs[|cs| - 1]];
    }
  }

  lemma {:induction false} BatchDistinct(cs: seq<Candidate>, key: BatchKey)
    requires DistinctIds(cs)
    ensures DistinctIds(Batch(cs, key))
  {
    if cs != [] {
      var init := cs[..|cs| - 1];
      BatchDistinct(init, key);
      BatchContents(init, key);
      forall c | c in Batch(init, key) ensures c.id != cs[|cs| - 1].id {
        assert c in init;
      }
    }
  }

  lemma {:induction false} BatchListed(cs: seq<Candidate>, key: BatchKey)
    ensures Batch(cs, key) != [] <==> key in Keys(cs)
  {
    if cs != [] {
      BatchListed(cs[..|cs| - 1], key);
    }
  }

  lemma BatchMembers(cs: seq<Candidate>, key: BatchKey)
    ensures forall c :: c in Batch(cs, key) <==> c in cs && c.batch == Some(key)
    ensures DistinctIds(cs) ==> DistinctIds(Batch(cs, key))
    ensures Batch(cs, key) != [] <==> key in Keys(cs)
  {
    BatchContents(cs, key);
    BatchListed(cs, key);
    if DistinctIds(cs) {
      BatchDistinct(cs, key);
    }
  }

  lemma LineMembers(cs: seq<Candidate>, key: BatchKey)
    requires DistinctIds(cs)
    ensures Ordered(Line(cs, key)) && forall c :: c in Line(cs, key) <==> c in cs && c.batch == Some(key)
    ensures Line(cs, key) != [] <==> key in Keys(cs)
  {
    BatchMembers(cs, key);
    SortKeeps(Batch(cs, key));
  }

  lemma {:induction false} KeysDistinct(cs: seq<Candidate>)
    ensures Distinct(Keys(cs))
  {
    if cs != [] {
      KeysDistinct(cs[..|cs| - 1]);
    }
  }

  /** The members of the candidate's group that are older than it. */
  ghost function Older(cs: seq<Candidate>, c: Candidate): set<Candidate> {
    set d | d in cs && d.batch == c.batch && (d.created < c.created || (d.created == c.created && d.id < c.id))
  }

  lemma PrefixSize(s: seq<Candidate>, n: nat)
    requires Ordered(s) && n <= |s|
    ensures |set d | d in s[..n]| == n
  {
    forall i, j | 0 <= i < j < n ensures s[..n][i] != s[..n][j] {
      assert Before(s[i], s[j]);
    }
    DistinctSize(s[..n]);
  }

  /** A member's place in line is the number of older members. */
  lemma PlaceInLine(cs: seq<Candidate>, key: BatchKey, i: nat)
    requires DistinctIds(cs) && i < |Line(cs, key)|
    ensures |Older(cs, Line(cs, key)[i])| == i
  {
    var line := Line(cs, key);
    LineMembers(cs, key);
    assert line[i] in line;
    PrefixSize(line, i);
    forall d ensures d in Older(cs, line[i]) <==> d in line[..i] {
      if d in Older(cs, line[i]) {
        assert d in line;
        var j :| 0 <= j < |line| && line[j] == d;
        assert j < i;
      }
      if d in line[..i] {
        assert d in line;
      }
    }
    assert Older(cs, line[i]) == set d | d in line[..i];
  }

  // ---------- every candidate is passed through, kept alone, covered once, or deferred ----------

  lemma {:induction false} PassthroughMembers(cs: seq<Candidate>)
    ensures forall e :: e in Passthrough(cs) <==> e.Alone? && e.lead in cs && e.lead.batch.None?
    ensures DistinctIds(cs) ==> Distinct(Passthrough(cs))
  {
    if cs != [] {
      PassthroughMembers(cs[..|cs| - 1]);
    }
  }

  lemma {:induction false} EntriesMembers(cs: seq<Candidate>, keys: seq<BatchKey>)
    requires Distinct(keys) && forall k | k in keys :: Line(cs, k) != []
    ensures |Entries(cs, keys)| == |keys|
    ensures forall i | 0 <= i < |keys| :: Entries(cs, keys)[i] == EntryOf(Line(cs, keys[i]))
  {
    if keys != [] {
      EntriesMembers(cs, keys[..|keys| - 1]);
    }
  }

  /** The entries after the ones passed through are those of the groups, in the order of the keys. */
  lemma GroupEntry(cs: seq<Candidate>, k: nat)
    requires DistinctIds(cs) && k < |Keys(cs)|
    ensures |Entries(cs, Keys(cs))| == |Keys(cs)| && Line(cs, Keys(cs)[k]) != []
    ensures Entries(cs, Keys(cs))[k] == EntryOf(Line(cs, Keys(cs)[k]))
  {
    GroupsListed(cs);
    EntriesMembers(cs, Keys(cs));
    assert Keys(cs)[k] in Keys(cs);
  }

  lemma GroupsListed(cs: seq<Candidate>)
    requires DistinctIds(cs)
    ensures Distinct(Keys(cs)) && forall k | k in Keys(cs) :: Line(cs, k) != []
    ensures |Entries(cs, Keys(cs))| == |Keys(cs)|
  {
    KeysDistinct(cs);
    forall k | k in Keys(cs) ensures Line(cs, k) != [] {
      LineMembers(cs, k);
    }
    EntriesMembers(cs, Keys(cs));
  }

  lemma EntryAt(cs: seq<Candidate>, key: BatchKey) returns (i: nat)
    requires DistinctIds(cs) && key in Keys(cs)
    ensures i < |Collapse(cs)| && Line(cs, key) != [] && Collapse(cs)[i] == EntryOf(Line(cs, key))
  {
    var k: nat :| k < |Keys(cs)| && Keys(cs)[k] == key;
    GroupEntry(cs, k);
    i := SecondPart(Passthrough(cs), Entries(cs, Keys(cs)), k);
  }

  lemma SecondPart(a: seq<Entry>, b: seq<Entry>, k: nat) returns (i: nat)
    requires k < |b|
    ensures i == |a| + k && (a + b)[i] == b[k]
  {
    i := |a| + k;
  }

  /** What each position of the result is. */
  lemma CollapseAt(cs: seq<Candidate>, i: nat)
    requires DistinctIds(cs) && i < |Collapse(cs)|
    ensures |Collapse(cs)| == |Passthrough(cs)| + |Keys(cs)|
    ensures i < |Passthrough(cs)| ==>
      Collapse(cs)[i].Alone? && Collapse(cs)[i].lead in cs && Collapse(cs)[i].lead.batch.None?
    ensures i >= |Passthrough(cs)| ==>
      var key := Keys(cs)[i - |Passthrough(cs)|]; Line(cs, key) != [] && Collapse(cs)[i] == EntryOf(Line(cs, key))
  {
    PassthroughMembers(cs);
    assert i < |Passthrough(cs)| ==> Passthrough(cs)[i] in Passthrough(cs);
    GroupsListed(cs);
    if i >= |Passthrough(cs)| {
      GroupEntry(cs, i - |Passthrough(cs)|);
    }
  }

  lemma EntryCovers(ordered: seq<Candidate>, c: Candidate)
    requires ordered != []
    ensures c in Covers(EntryOf(ordered)) <==> exists i :: 0 <= i < Least(BATCH_LIMIT, |ordered|) && ordered[i] == c
  {
  }

  /** An entry of a group covers exactly those members with fewer than four older ones. */
  lemma GroupCovers(cs: seq<Candidate>, key: BatchKey, c: Candidate)
    requires DistinctIds(cs) && Line(cs, key) != []
    ensures c in Covers(EntryOf(Line(cs, key))) <==> c in cs && c.batch == Some(key) && |Older(cs, c)| < BATCH_LIMIT
  {
    var line := Line(cs, key);
    LineMembers(cs, key);
    EntryCovers(line, c);
    if c in line {
      var i :| 0 <= i < |line| && line[i] == c;
      PlaceInLine(cs, key, i);
      forall j | 0 <= j < |line| && line[j] == c ensures j == i {
        PlaceInLine(cs, key, j);
      }
    } else {
      forall j | 0 <= j < |line| ensures line[j] != c {
        assert line[j] in line;
      }
    }
  }

  lemma CoveredBy(cs: seq<Candidate>, i: nat, c: Candidate)
    requires DistinctIds(cs) && i < |Collapse(cs)|
    ensures c in Covers(Collapse(cs)[i]) ==> c in cs && (c.batch.None? || |Older(cs, c)| < BATCH_LIMIT)
    ensures c in Covers(Collapse(cs)[i]) && i < |Passthrough(cs)| ==> c.batch.None? && Passthrough(cs)[i] == Alone(c)
    ensures c in Covers(Collapse(cs)[i]) && i >= |Passthrough(cs)| ==>
      |Collapse(cs)| == |Passthrough(cs)| + |Keys(cs)| && c.batch == Some(Keys(cs)[i - |Passthrough(cs)|])
  {
    CollapseAt(cs, i);
    if i >= |Passthrough(cs)| {
      GroupCovers(cs, Keys(cs)[i - |Passthrough(cs)|], c);
    }
  }

  /** No candidate is covered twice. */
  lemma CoveredOnce(cs: seq<Candidate>, i: nat, j: nat, c: Candidate)
    requires DistinctIds(cs) && i < |Collapse(cs)| && j < |Collapse(cs)|
    requires c in Covers(Collapse(cs)[i]) && c in Covers(Collapse(cs)[j])
    ensures i == j
  {
    CoveredBy(cs, i, c);
    CoveredBy(cs, j, c);
    PassthroughMembers(cs);
    KeysDistinct(cs);
  }

  /** Covered are exactly the candidates that are not batchable or have fewer than four older group members. */
  lemma CoveredExactly(cs: seq<Candidate>, c: Candidate)
    requires DistinctIds(cs)
    ensures (exists i :: 0 <= i < |Collapse(cs)| && c in Covers(Collapse(cs)[i]))
      <==> c in cs && (c.batch.None? || |Older(cs, c)| < 4)
  {
    forall i | 0 <= i < |Collapse(cs)| && c in Covers(Collapse(cs)[i])
      ensures c in cs && (c.batch.None? || |Older(cs, c)| < BATCH_LIMIT)
    {
      CoveredBy(cs, i, c);
    }
    if c in cs && c.batch.None? {
      PassthroughMembers(cs);
      assert Alone(c) in Passthrough(cs);
      var i :| 0 <= i < |Passthrough(cs)| && Passthrough(cs)[i] == Alone(c);
      assert c in Covers(Collapse(cs)[i]);
    } else if c in cs && |Older(cs, c)| < BATCH_LIMIT {
      var i := GroupIsListed(cs, c);
    }
  }

  lemma GroupIsListed(cs: seq<Candidate>, c: Candidate) returns (i: nat)
    requires DistinctIds(cs) && c in cs && c.batch.Some? && |Older(cs, c)| < BATCH_LIMIT
    ensures i < |Collapse(cs)| && c in Covers(Collapse(cs)[i])
  {
    var key := c.batch.value;
    LineMembers(cs, key);
    GroupCovers(cs, key, c);
    i := EntryAt(cs, key);
  }

  /** A carrier is its group's oldest member and covers two to four members, all of them if it can. */
  lemma CarrierIsOldest(cs: seq<Candidate>, i: nat)
    requires DistinctIds(cs) && i < |Collapse(cs)| && Collapse(cs)[i].Carrier?
    ensures var e := Collapse(cs)[i];
      && e.lead in e.covered && e.lead.batch.Some? && Older(cs, e.lead) == {}
      && 2 <= |e.covered| <= 4 && |e.covered| <= |Batch(cs, e.lead.batch.value)|
      && (|e.covered| < 4 ==> |e.covered| == |Batch(cs, e.lead.batch.value)|)
  {
    CollapseAt(cs, i);
    var key := Keys(cs)[i - |Passthrough(cs)|];
    LineMembers(cs, key);
    BatchMembers(cs, key);
    SortKeeps(Batch(cs, key));
    PlaceInLine(cs, key, 0);
    assert Line(cs, key)[0] in Line(cs, key);
  }

  // ---------- the order of the result ----------

  /** Further candidates never move what was passed through before them, nor the groups first seen before them. */
  lemma {:induction false} ResultInOrder(cs: seq<Candidate>, more: seq<Candidate>)
    ensures Passthrough(cs) <= Passthrough(cs + more) && Keys(cs) <= Keys(cs + more)
  {
    if more == [] {
      assert cs + more == cs;
    } else {
      var n := |more| - 1;
      ResultInOrder(cs, more[..n]);
      assert (cs + more)[..|cs + more| - 1] == cs + more[..n];
    }
  }

  // ---------- rounds ----------

  function Without(cs: seq<Candidate>, gone: seq<Candidate>): seq<Candidate> {
    if cs == [] then []
    else
      var c := cs[|cs| - 1];
      Without(cs[..|cs| - 1], gone) + (if c in gone then [] else [c])
  }

  lemma {:induction false} WithoutMembers(cs: seq<Candidate>, gone: seq<Candidate>)
    ensures forall c :: c in Without(cs, gone) <==> c in cs && c !in gone
    ensures DistinctIds(cs) ==> DistinctIds(Without(cs, gone))
  {
    if cs != [] {
      var init := cs[..|cs| - 1];
      WithoutMembers(init, gone);
      if DistinctIds(cs) {
        forall c | c in Without(init, gone) ensures c.id != cs[|cs| - 1].id {
          assert c in init;
        }
      }
    }
  }

  /** The entry of a group is selected and leaves pending, and so does all it covers. */
  function Round(cs: seq<Candidate>, key: BatchKey): seq<Candidate> {
    var line := Line(cs, key);
    if line == [] then cs else Without(cs, Covers(EntryOf(line)))
  }

  /** One round of a group takes the first of its line, at most four, and nobody else. */
  lemma RoundServes(cs: seq<Candidate>, key: BatchKey, other: BatchKey)
    requires DistinctIds(cs)
    ensures DistinctIds(Round(cs, key))
    ensures Line(Round(cs, key), other)
      == if other == key then Line(cs, key)[Least(BATCH_LIMIT, |Line(cs, key)|)..] else Line(cs, other)
  {
    var line := Line(cs, key);
    if line != [] {
      var n := Least(BATCH_LIMIT, |line|);
      assert Covers(EntryOf(line)) == line[..n];
      WithoutMembers(cs, line[..n]);
      if other == key {
        LineWithoutOwn(cs, key, n);
      } else {
        LineWithoutOthers(cs, line[..n], key, other);
      }
    }
  }

  lemma LineWithoutOwn(cs: seq<Candidate>, key: BatchKey, n: nat)
    requires DistinctIds(cs) && n <= |Line(cs, key)|
    ensures Line(Without(cs, Line(cs, key)[..n]), key) == Line(cs, key)[n..]
  {
    var line := Line(cs, key);
    var kept := Without(cs, line[..n]);
    LineMembers(cs, key);
    WithoutMembers(cs, line[..n]);
    LineMembers(kept, key);
    forall c ensures c in line[n..] <==> c in Line(kept, key) {
      SplitMembers(line, n, c);
    }
    OrderedUnique(line[n..], Line(kept, key));
  }

  lemma LineWithoutOthers(cs: seq<Candidate>, gone: seq<Candidate>, key: BatchKey, other: BatchKey)
    requires DistinctIds(cs) && other != key && (forall c | c in gone :: c in Line(cs, key))
    ensures Line(Without(cs, gone), other) == Line(cs, other)
  {
    LineMembers(cs, key);
    LineMembers(cs, other);
    WithoutMembers(cs, gone);
    LineMembers(Without(cs, gone), other);
    OrderedUnique(Line(cs, other), Line(Without(cs, gone), other));
  }

  lemma SplitMembers(s: seq<Candidate>, n: nat, c: Candidate)
    requires Ordered(s) && n <= |s|
    ensures c in s[n..] <==> c in s && c !in s[..n]
  {
    assert s == s[..n] + s[n..];
    forall i, j | 0 <= i < n && 0 <= j < |s| - n ensures s[..n][i] != s[n..][j] {
      assert Before(s[i], s[n + j]);
    }
  }

  function Rounds(cs: seq<Candidate>, keys: seq<BatchKey>): seq<Candidate> {
    if keys == [] then cs else Round(Rounds(cs, keys[..|keys| - 1]), keys[|keys| - 1])
  }

  /** How many of the rounds are the group's. */
  function Turns(keys: seq<BatchKey>, key: BatchKey): nat {
    if keys == [] then 0 else Turns(keys[..|keys| - 1], key) + if keys[|keys| - 1] == key then 1 else 0
  }

  /** Rounds of other groups in between do not matter: each round of a group takes the next four in line. */
  lemma {:induction false} RoundsServeInOrder(cs: seq<Candidate>, keys: seq<BatchKey>, key: BatchKey)
    requires DistinctIds(cs)
    ensures DistinctIds(Rounds(cs, keys))
    ensures Line(Rounds(cs, keys), key) == Line(cs, key)[Least(BATCH_LIMIT * Turns(keys, key), |Line(cs, key)|)..]
  {
    if keys != [] {
      var init, last := keys[..|keys| - 1], keys[|keys| - 1];
      RoundsServeInOrder(cs, init, key);
      RoundServes(Rounds(cs, init), last, key);
      if last == key {
        NextFour(Line(cs, key), Turns(init, key));
      }
    }
  }

  lemma NextFour(line: seq<Candidate>, turns: nat)
    ensures var left := line[Least(BATCH_LIMIT * turns, |line|)..];
      left[Least(BATCH_LIMIT, |left|)..] == line[Least(BATCH_LIMIT * (turns + 1), |line|)..]
  {
  }

  /** A group of n members is gone exactly when it has had at least ceil(n / 4) rounds. */
  lemma GroupDrainsExactly(cs: seq<Candidate>, keys: seq<BatchKey>, key: BatchKey)
    requires DistinctIds(cs)
    ensures (forall c | c in Rounds(cs, keys) :: c.batch != Some(key))
      <==> Turns(keys, key) >= (|Batch(cs, key)| + 3) / 4
  {
    RoundsServeInOrder(cs, keys, key);
    LineMembers(Rounds(cs, keys), key);
    BatchMembers(cs, key);
    SortKeeps(Batch(cs, key));
    var left := Line(Rounds(cs, keys), key);
    if left != [] {
      assert left[0] in left;
    }
  }

  // ---------- the outcome copied to the covered tasks ----------

  datatype Row = Row(candidate: Candidate, status: Status, parent: Option<TaskId>)

  /** The pending rows, as candidates. */
  function Offered(rows: seq<Row>): seq<Candidate> {
    if rows == [] then []
    else
      var r := rows[|rows| - 1];
      Offered(rows[..|rows| - 1]) + (if r.status == Pending then [r.candidate] else [])
  }

  function Synced(row: Row, lead: TaskId, status: Status, batched: seq<TaskId>): Row {
    if row.candidate.id in batched && row.candidate.id != lead then row.(status := status, parent := Some(lead)) else row
  }

  function SyncedAll(rows: seq<Row>, lead: TaskId, status: Status, batched: seq<TaskId>): seq<Row> {
    seq(|rows|, i requires 0 <= i < |rows| => Synced(rows[i], lead, status, batched))
  }

  /** The carrier's own row takes its status first. */
  function Moved(rows: seq<Row>, lead: TaskId, status: Status): seq<Row> {
    seq(|rows|, i requires 0 <= i < |rows| =>
      if rows[i].candidate.id == lead then rows[i].(status := status) else rows[i])
  }

  function Ids(cs: seq<Candidate>): seq<TaskId> {
    seq(|cs|, i requires 0 <= i < |cs| => cs[i].id)
  }

  ghost predicate RowsDistinct(rows: seq<Row>) {
    forall i, j | 0 <= i < j < |rows| :: rows[i].candidate.id != rows[j].candidate.id
  }

  lemma WithoutAppend(cs: seq<Candidate>, c: Candidate, gone: seq<Candidate>)
    ensures Without(cs + [c], gone) == Without(cs, gone) + if c in gone then [] else [c]
  {
    assert (cs + [c])[..|cs|] == cs;
  }

  lemma OfferedStep(rows: seq<Row>, n: nat)
    requires |rows| == n + 1
    ensures Offered(rows) == if rows[n].status == Pending then Offered(rows[..n]) + [rows[n].candidate] else Offered(rows[..n])
  {
  }

  lemma {:induction false} OfferedWithout(rows: seq<Row>, after: seq<Row>, gone: seq<Candidate>)
    requires |rows| == |after|
    requires forall i | 0 <= i < |rows| :: after[i].candidate == rows[i].candidate
    requires forall i | 0 <= i < |rows| :: after[i].status == Pending <==> rows[i].status == Pending && rows[i].candidate !in gone
    ensures Offered(after) == Without(Offered(rows), gone)
  {
    if rows != [] {
      var n := |rows| - 1;
      OfferedWithout(rows[..n], after[..n], gone);
      OfferedStep(rows, n);
      OfferedStep(after, n);
      WithoutAppend(Offered(rows[..n]), rows[n].candidate, gone);
    }
  }

  lemma {:induction false} OfferedMembers(rows: seq<Row>)
    requires RowsDistinct(rows)
    ensures DistinctIds(Offered(rows))
    ensures forall c :: c in Offered(rows) <==> exists i :: 0 <= i < |rows| && rows[i] == Row(c, Pending, rows[i].parent)
  {
    if rows != [] {
      var n := |rows| - 1;
      OfferedMembers(rows[..n]);
      forall c | c in Offered(rows[..n]) ensures c.id != rows[n].candidate.id {
        var i :| 0 <= i < n && rows[..n][i] == Row(c, Pending, rows[..n][i].parent);
        assert rows[i].candidate == c;
      }
      forall c ensures c in Offered(rows) <==> exists i :: 0 <= i < |rows| && rows[i] == Row(c, Pending, rows[i].parent) {
        if c in Offered(rows) && c in Offered(rows[..n]) {
          var i :| 0 <= i < n && rows[..n][i] == Row(c, Pending, rows[..n][i].parent);
          assert rows[i] == Row(c, Pending, rows[i].parent);
        } else if c in Offered(rows) {
          assert rows[n] == Row(c, Pending, rows[n].parent);
        }
        if i :| 0 <= i < |rows| && rows[i] == Row(c, Pending, rows[i].parent) && i < n {
          assert rows[..n][i] == Row(c, Pending, rows[..n][i].parent);
        }
      }
    }
  }

  /** The covered tasks all have a row, and the carrier comes first among them. */
  lemma {:induction false} CoveredHaveRows(rows: seq<Row>, key: BatchKey)
    requires RowsDistinct(rows) && Line(Offered(rows), key) != []
    ensures var entry := EntryOf(Line(Offered(rows), key));
      && Covers(entry) != [] && entry.lead == Covers(entry)[0]
      && forall c | c in Covers(entry) :: exists j :: 0 <= j < |rows| && rows[j].candidate == c
  {
    var line := Line(Offered(rows), key);
    OfferedMembers(rows);
    LineMembers(Offered(rows), key);
    forall c | c in Covers(EntryOf(line)) ensures exists j :: 0 <= j < |rows| && rows[j].candidate == c {
      assert c in line;
      var j :| 0 <= j < |rows| && rows[j] == Row(c, Pending, rows[j].parent);
    }
  }

  /** A carrier that leaves pending takes exactly what it covers with it: one round of its group. */
  lemma SyncIsOneRound(rows: seq<Row>, key: BatchKey, status: Status)
    requires RowsDistinct(rows) && status != Pending && Line(Offered(rows), key) != []
    ensures var entry := EntryOf(Line(Offered(rows), key));
      Offered(SyncedAll(Moved(rows, entry.lead.id, status), entry.lead.id, status, Ids(Covers(entry))))
      == Round(Offered(rows), key)
  {
    CoveredHaveRows(rows, key);
    var gone := Covers(EntryOf(Line(Offered(rows), key)));
    SyncRemoves(rows, gone, status);
  }

  lemma SyncRemoves(rows: seq<Row>, gone: seq<Candidate>, status: Status)
    requires RowsDistinct(rows) && status != Pending && gone != []
    requires forall c | c in gone :: exists j :: 0 <= j < |rows| && rows[j].candidate == c
    ensures Offered(SyncedAll(Moved(rows, gone[0].id, status), gone[0].id, status, Ids(gone))) == Without(Offered(rows), gone)
  {
    var after := SyncedAll(Moved(rows, gone[0].id, status), gone[0].id, status, Ids(gone));
    forall i | 0 <= i < |rows|
      ensures after[i].status == Pending <==> rows[i].status == Pending && rows[i].candidate !in gone
    {
      GoneById(rows, gone, i);
    }
    OfferedWithout(rows, after, gone);
  }

  lemma GoneById(rows: seq<Row>, gone: seq<Candidate>, i: nat)
    requires RowsDistinct(rows) && i < |rows| && gone != []
    requires forall c | c in gone :: exists j :: 0 <= j < |rows| && rows[j].candidate == c
    ensures rows[i].candidate in gone <==> rows[i].candidate.id in Ids(gone)
    ensures rows[i].candidate.id == gone[0].id ==> rows[i].candidate in gone
  {
    forall k | 0 <= k < |gone| && gone[k].id == rows[i].candidate.id ensures gone[k] == rows[i].candidate {
      assert gone[k] in gone;
      var j :| 0 <= j < |rows| && rows[j].candidate == gone[k];
    }
    if rows[i].candidate in gone {
      var k :| 0 <= k < |gone| && gone[k] == rows[i].candidate;
      assert Ids(gone)[k] == rows[i].candidate.id;
    }
    if rows[i].candidate.id in Ids(gone) {
      var k :| 0 <= k < |gone| && Ids(gone)[k] == rows[i].candidate.id;
      assert gone[k] in gone;
    }
    assert gone[0] in gone;
  }

  /** A round of a group as the stored rows see it: the carrier ends with this status, and its outcome is copied. */
  function SyncRound(rows: seq<Row>, key: BatchKey, status: Status): seq<Row> {
    var line := Line(Offered(rows), key);
    if line == [] then rows
    else
      var entry := EntryOf(line);
      SyncedAll(Moved(rows, entry.lead.id, status), entry.lead.id, status, Ids(Covers(entry)))
  }

  /** What a sync makes of each row: the carrier takes the status, each other covered task the status and the carrier as parent. */
  lemma SyncCopies(rows: seq<Row>, key: BatchKey, status: Status, i: nat)
    requires RowsDistinct(rows) && i < |rows| && Line(Offered(rows), key) != []
    ensures var entry, row := EntryOf(Line(Offered(rows), key)), rows[i];
      SyncRound(rows, key, status)[i] ==
        if row.candidate == entry.lead then Row(row.candidate, status, row.parent)
        else if row.candidate in Covers(entry) then Row(row.candidate, status, Some(entry.lead.id))
        else row
  {
    CoveredHaveRows(rows, key);
    RowAfterCopy(rows, Covers(EntryOf(Line(Offered(rows), key))), status, i);
  }

  lemma RowAfterCopy(rows: seq<Row>, gone: seq<Candidate>, status: Status, i: nat)
    requires RowsDistinct(rows) && i < |rows| && gone != []
    requires forall c | c in gone :: exists j :: 0 <= j < |rows| && rows[j].candidate == c
    ensures SyncedAll(Moved(rows, gone[0].id, status), gone[0].id, status, Ids(gone))[i] ==
      if rows[i].candidate == gone[0] then Row(rows[i].candidate, status, rows[i].parent)
      else if rows[i].candidate in gone then Row(rows[i].candidate, status, Some(gone[0].id))
      else rows[i]
  {
    GoneById(rows, gone, i);
    assert gone[0] in gone;
    LeadById(rows, gone[0], i);
  }

  lemma LeadById(rows: seq<Row>, lead: Candidate, i: nat)
    requires RowsDistinct(rows) && i < |rows| && exists j :: 0 <= j < |rows| && rows[j].candidate == lead
    ensures rows[i].candidate == lead <==> rows[i].candidate.id == lead.id
  {
    var j :| 0 <= j < |rows| && rows[j].candidate == lead;
  }

  datatype Sync = Sync(key: BatchKey, status: Status)

  function SyncRounds(rows: seq<Row>, syncs: seq<Sync>): seq<Row> {
    if syncs == [] then rows
    else
      var last := syncs[|syncs| - 1];
      SyncRound(SyncRounds(rows, syncs[..|syncs| - 1]), last.key, last.status)
  }

  function SyncKeys(syncs: seq<Sync>): (keys: seq<BatchKey>)
    ensures |keys| == |syncs|
  {
    seq(|syncs|, i requires 0 <= i < |syncs| => syncs[i].key)
  }

  ghost predicate SameTasks(rows: seq<Row>, after: seq<Row>) {
    |after| == |rows| && forall i | 0 <= i < |rows| :: after[i].candidate == rows[i].candidate
  }

  lemma SyncRoundIsRound(rows: seq<Row>, key: BatchKey, status: Status)
    requires RowsDistinct(rows) && status != Pending
    ensures SameTasks(rows, SyncRound(rows, key, status))
    ensures Offered(SyncRound(rows, key, status)) == Round(Offered(rows), key)
  {
    if Line(Offered(rows), key) != [] {
      SyncIsOneRound(rows, key, status);
    }
  }

  /** Syncs of stored rows, whatever final statuses the carriers end with, are rounds of the pending candidates. */
  lemma {:induction false} SyncsAreRounds(rows: seq<Row>, syncs: seq<Sync>)
    requires RowsDistinct(rows) && forall sync | sync in syncs :: sync.status != Pending
    ensures SameTasks(rows, SyncRounds(rows, syncs))
    ensures Offered(SyncRounds(rows, syncs)) == Rounds(Offered(rows), SyncKeys(syncs))
  {
    if syncs != [] {
      var n := |syncs| - 1;
      SyncsAreRounds(rows, syncs[..n]);
      SyncRoundIsRound(SyncRounds(rows, syncs[..n]), syncs[n].key, syncs[n].status);
      RoundsOneMore(Offered(rows), syncs);
    }
  }

  lemma RoundsOneMore(cs: seq<Candidate>, syncs: seq<Sync>)
    requires syncs != []
    ensures Rounds(cs, SyncKeys(syncs)) == Round(Rounds(cs, SyncKeys(syncs[..|syncs| - 1])), syncs[|syncs| - 1].key)
  {
    assert SyncKeys(syncs)[..|syncs| - 1] == SyncKeys(syncs[..|syncs| - 1]);
  }

  /** A group with n pending rows has none left exactly when at least ceil(n / 4) of the syncs were its own. */
  lemma SyncsDrainExactly(rows: seq<Row>, syncs: seq<Sync>, key: BatchKey)
    requires RowsDistinct(rows) && forall sync | sync in syncs :: sync.status != Pending
    ensures (forall r | r in SyncRounds(rows, syncs) && r.candidate.batch == Some(key) :: r.status != Pending)
      <==> Turns(SyncKeys(syncs), key) >= (|Batch(Offered(rows), key)| + 3) / 4
  {
    SyncsAreRounds(rows, syncs);
    OfferedMembers(rows);
    GroupDrainsExactly(Offered(rows), SyncKeys(syncs), key);
    PendingRows(SyncRounds(rows, syncs), key);
  }

  lemma PendingRows(rows: seq<Row>, key: BatchKey)
    requires RowsDistinct(rows)
    ensures (forall r | r in rows && r.candidate.batch == Some(key) :: r.status != Pending)
      <==> forall c | c in Offered(rows) :: c.batch != Some(key)
  {
    OfferedMembers(rows);
    forall i | 0 <= i < |rows| && rows[i].status == Pending ensures rows[i].candidate in Offered(rows) {
      assert rows[i] == Row(rows[i].candidate, Pending, rows[i].parent);
    }
  }

  // ---------- the loops ----------

  ghost predicate GroupsOf(done: seq<Candidate>, order: seq<BatchKey>, grouped: map<BatchKey, seq<Candidate>>) {
    && order == Keys(done)
    && (forall k :: k in grouped <==> k in order)
    && (forall k | k in grouped :: grouped[k] == Batch(done, k))
  }

  lemma BatchOneMore(done: seq<Candidate>, c: Candidate, key: BatchKey)
    ensures Batch(done + [c], key) == Batch(done, key) + BatchPart(c, key)
  {
    assert (done + [c])[..|done|] == done;
  }

  lemma KeysOneMore(done: seq<Candidate>, c: Candidate)
    ensures Keys(done + [c])
      == if c.batch.None? || c.batch.value in Keys(done) then Keys(done) else Keys(done) + [c.batch.value]
  {
    assert (done + [c])[..|done|] == done;
  }

  lemma GroupsSkip(done: seq<Candidate>, c: Candidate, order: seq<BatchKey>, grouped: map<BatchKey, seq<Candidate>>)
    requires GroupsOf(done, order, grouped) && c.batch == None
    ensures GroupsOf(done + [c], order, grouped)
  {
    KeysOneMore(done, c);
    forall k | k in grouped ensures grouped[k] == Batch(done + [c], k) {
      BatchOneMore(done, c, k);
    }
  }

  lemma GroupsJoin(done: seq<Candidate>, c: Candidate, key: BatchKey, order: seq<BatchKey>, grouped: map<BatchKey, seq<Candidate>>)
    requires GroupsOf(done, order, grouped) && c.batch == Some(key) && key in grouped
    ensures GroupsOf(done + [c], order, grouped[key := grouped[key] + [c]])
  {
    KeysOneMore(done, c);
    forall k | k in grouped ensures Batch(done + [c], k) == if k == key then grouped[key] + [c] else grouped[k] {
      BatchOneMore(done, c, k);
    }
  }

  lemma GroupsOpen(done: seq<Candidate>, c: Candidate, key: BatchKey, order: seq<BatchKey>, grouped: map<BatchKey, seq<Candidate>>)
    requires GroupsOf(done, order, grouped) && c.batch == Some(key) && key !in grouped
    ensures GroupsOf(done + [c], order + [key], grouped[key := [c]])
  {
    KeysOneMore(done, c);
    BatchMembers(done, key);
    BatchOneMore(done, c, key);
    forall k | k in grouped ensures Batch(done + [c], k) == grouped[k] {
      BatchOneMore(done, c, k);
    }
  }

  /** The first loop: what passes through, and the groups in a dictionary that keeps the order of its keys. */
  method GroupCandidates(cs: seq<Candidate>)
    returns (passthrough: seq<Entry>, order: seq<BatchKey>, grouped: map<BatchKey, seq<Candidate>>)
    ensures passthrough == Passthrough(cs) && GroupsOf(cs, order, grouped)
  {
    passthrough, order, grouped := [], [], map[];
    for i := 0 to |cs|
      invariant passthrough == Passthrough(cs[..i]) && GroupsOf(cs[..i], order, grouped)
    {
      var c := cs[i];
      assert cs[..i + 1] == cs[..i] + [c] && cs[..i + 1][..i] == cs[..i];
      if c.batch.None? {
        GroupsSkip(cs[..i], c, order, grouped);
        passthrough := passthrough + [Alone(c)];
      } else {
        var key := c.batch.value;
        if key in grouped {
          GroupsJoin(cs[..i], c, key, order, grouped);
          grouped := grouped[key := grouped[key] + [c]];
        } else {
          GroupsOpen(cs[..i], c, key, order, grouped);
          grouped := grouped[key := [c]];
          order := order + [key];
        }
      }
    }
    assert cs[..|cs|] == cs;
  }

  method CollapseBatchableCandidates(cs: seq<Candidate>) returns (collapsed: seq<Entry>)
    ensures collapsed == Collapse(cs)
  {
    var order, grouped;
    collapsed, order, grouped := GroupCandidates(cs);
    ghost var entries := [];
    for j := 0 to |order|
      invariant entries == Entries(cs, order[..j]) && collapsed == Passthrough(cs) + entries
    {
      GroupListed(cs, order, grouped, j);
      EntriesOneMore(cs, order, j);
      var ordered := Sort(grouped[order[j]]);
      collapsed := collapsed + [EntryOf(ordered)];
      entries := entries + [EntryOf(ordered)];
    }
    assert order[..|order|] == order;
  }

  lemma EntriesOneMore(cs: seq<Candidate>, keys: seq<BatchKey>, j: nat)
    requires j < |keys| && Line(cs, keys[j]) != []
    ensures Entries(cs, keys[..j + 1]) == Entries(cs, keys[..j]) + [EntryOf(Line(cs, keys[j]))]
  {
    assert keys[..j + 1][..j] == keys[..j];
  }

  lemma GroupListed(cs: seq<Candidate>, order: seq<BatchKey>, grouped: map<BatchKey, seq<Candidate>>, j: nat)
    requires GroupsOf(cs, order, grouped) && j < |order|
    ensures order[j] in grouped && Sort(grouped[order[j]]) == Line(cs, order[j]) != []
  {
    assert order[j] in order;
    BatchMembers(cs, order[j]);
    SortSize(grouped[order[j]]);
  }

  lemma {:induction false} SortSize(s: seq<Candidate>)
    ensures |Sort(s)| == |s|
  {
    if s != [] {
      SortSize(s[..|s| - 1]);
      InsertSize(s[|s| - 1], Sort(s[..|s| - 1]));
    }
  }

  lemma {:induction false} InsertSize(c: Candidate, s: seq<Candidate>)
    ensures |Insert(c, s)| == |s| + 1
  {
    if s != [] {
      InsertSize(c, s[..|s| - 1]);
    }
  }

  class MessageTasks {
    var rows: seq<Row>

    constructor (stored: seq<Row>)
      ensures rows == stored
    {
      rows := stored;
    }

    method SyncBatchedPeerTasks(lead: TaskId, status: Status, batched: seq<TaskId>)
      modifies this
      ensures rows == SyncedAll(old(rows), lead, status, batched)
    {
      var snapshot := rows;
      for i := 0 to |snapshot|
        invariant |rows| == |snapshot| && rows[i..] == snapshot[i..]
        invariant forall k | 0 <= k < i :: rows[k] == Synced(snapshot[k], lead, status, batched)
      {
        var row := snapshot[i];
        if row.candidate.id in batched && row.candidate.id != lead {
          rows := rows[i := row.(status := status, parent := Some(lead))];
        }
      }
    }
  }
}
