/**
 Thermal hysteresis for local work (astrata/local/thermal.py): a hot sample leaves a latch,
 and a nominal sample is allowed again only once the latch has not been renewed for the cooldown time.
 */
module Thermal {
  import opened Options
  import opened Text

  datatype Severity = Nominal | Fair | Severe | Critical | Unknown

  datatype Action = Allow | Cooldown | Deny

  datatype Decision = Decision(sample: Severity, latched: Severity, action: Action)

  /** The stored state: the last decision and when it was stored. */
  datatype Stored = Stored(decision: Decision, updatedAt: int)

  predicate Hot(s: Severity) {
    s == Fair || s == Severe || s == Critical
  }

  function NormalizePressure(value: string): Severity {
    var lowered := Lower(Strip(value));
    if lowered == "nominal" then Nominal
    else if lowered == "fair" then Fair
    else if lowered == "severe" then Severe
    else if lowered == "critical" then Critical
    else Unknown
  }

  function Latched(state: Option<Stored>): Severity {
    match state case None => Unknown case Some(s) => s.decision.latched
  }

  predicate Expired(state: Option<Stored>, ttl: nat, checked: int) {
    state.None? || state.value.updatedAt <= 0 || ttl == 0 || checked - state.value.updatedAt >= ttl
  }

  function Decide(state: Option<Stored>, ttl: nat, sample: Severity, bypass: bool, checked: int): Decision {
    var previous, expired := Latched(state), Expired(state, ttl, checked);
    match sample
    case Severe | Critical => Decision(sample, sample, Deny)
    case Fair => Decision(Fair, Fair, Cooldown)
    case Nominal =>
      if !bypass && Hot(previous) && !expired then Decision(Nominal, Fair, Cooldown) else Decision(Nominal, Nominal, Allow)
    case Unknown =>
      var latched := if previous != Unknown && !expired then previous else Unknown;
      Decision(Unknown, latched, if Hot(latched) then Cooldown else Allow)
  }

  /** A reported pressure counts in any case and with any white space around it; any other text is unknown. */
  lemma PressureExactly(value: string)
    ensures NormalizePressure(value) == Critical <==> Lower(Strip(value)) == "critical"
    ensures NormalizePressure(value) == Severe <==> Lower(Strip(value)) == "severe"
    ensures NormalizePressure(value) == Fair <==> Lower(Strip(value)) == "fair"
    ensures NormalizePressure(value) == Nominal <==> Lower(Strip(value)) == "nominal"
    ensures NormalizePressure(value) == Unknown
      <==> Lower(Strip(value)) !in {"critical", "severe", "fair", "nominal"}
  {
    assert "critical"[0] != "severe"[0] && "fair"[0] != "nominal"[0] && "critical"[0] != "fair"[0];
    assert "critical"[0] != "nominal"[0] && "severe"[0] != "fair"[0] && "severe"[0] != "nominal"[0];
  }

  /** A decision stored without a time, or with no cooldown time set, holds nothing back. */
  lemma UntimedHoldsNothing(decision: Decision, at: int, ttl: nat, bypass: bool, checked: int)
    requires at <= 0 || ttl == 0
    ensures Decide(Some(Stored(decision, at)), ttl, Nominal, bypass, checked).action == Allow
    ensures Decide(Some(Stored(decision, at)), ttl, Unknown, bypass, checked).action == Allow
  {
  }

  // ---------- runs ----------

  /** Each evaluation reads the clock twice: to check the latch and to store the decision. */
  datatype Event = Evaluate(sample: Severity, bypass: bool, checked: int, stored: int) | ClearLatch

  function After(state: Option<Stored>, ttl: nat, e: Event): Option<Stored> {
    match e
    case Evaluate(sample, bypass, checked, stored) => Some(Stored(Decide(state, ttl, sample, bypass, checked), stored))
    case ClearLatch => None
  }

  /** The state before event `i` of a run that starts with nothing stored. */
  function StateBefore(events: seq<Event>, ttl: nat, i: nat): Option<Stored>
    requires i <= |events|
  {
    if i == 0 then None else After(StateBefore(events, ttl, i - 1), ttl, events[i - 1])
  }

  function DecisionAt(events: seq<Event>, ttl: nat, i: nat): Decision
    requires i < |events| && events[i].Evaluate?
  {
    Decide(StateBefore(events, ttl, i), ttl, events[i].sample, events[i].bypass, events[i].checked)
  }

  /** The clock is positive and never goes back. */
  ghost predicate Clocked(events: seq<Event>) {
    && (forall i | 0 <= i < |events| && events[i].Evaluate? :: 0 < events[i].checked <= events[i].stored)
    && (forall i, j | 0 <= i < j < |events| && events[i].Evaluate? && events[j].Evaluate? :: events[i].stored <= events[j].checked)
  }

  predicate HotAt(events: seq<Event>, i: nat)
    requires i < |events|
  {
    events[i].Evaluate? && (events[i].sample == Fair || events[i].sample == Severe || events[i].sample == Critical)
  }

  /** Between this evaluation and the one stored just before it lies at least the cooldown time. */
  predicate LongGap(events: seq<Event>, ttl: nat, i: nat)
    requires 0 < i < |events|
  {
    events[i].Evaluate? && events[i - 1].Evaluate? && events[i].checked - events[i - 1].stored >= ttl
  }

  predicate BypassedNominal(events: seq<Event>, i: nat)
    requires i < |events|
  {
    events[i].Evaluate? && events[i].bypass && events[i].sample == Nominal
  }

  /** The events that can let go of a latch. */
  predicate Releases(events: seq<Event>, ttl: nat, i: nat)
    requires 0 < i < |events|
  {
    events[i].ClearLatch? || LongGap(events, ttl, i) || BypassedNominal(events, i)
  }

  /** Some hot sample up to here has not been followed by any release. */
  ghost predicate Held(events: seq<Event>, ttl: nat, i: nat)
    requires i < |events|
  {
    exists h: nat :: h <= i && HotAt(events, h) && forall k: nat | h < k <= i :: !Releases(events, ttl, k)
  }

  lemma UnreleasedHeld(events: seq<Event>, ttl: nat, h: nat, i: nat)
    requires h <= i < |events| && HotAt(events, h)
    requires forall k: nat | h < k <= i :: !Releases(events, ttl, k)
    ensures Held(events, ttl, i)
  {
  }

  lemma HeldStep(events: seq<Event>, ttl: nat, i: nat)
    requires 0 < i < |events|
    ensures Held(events, ttl, i) <==> HotAt(events, i) || (Held(events, ttl, i - 1) && !Releases(events, ttl, i))
  {
    if Held(events, ttl, i - 1) && !Releases(events, ttl, i) {
      var h: nat :| h <= i - 1 && HotAt(events, h) && forall k: nat | h < k <= i - 1 :: !Releases(events, ttl, k);
      assert h <= i && forall k: nat | h < k <= i :: !Releases(events, ttl, k);
    }
    if Held(events, ttl, i) && !HotAt(events, i) {
      var h: nat :| h <= i && HotAt(events, h) && forall k: nat | h < k <= i :: !Releases(events, ttl, k);
      assert h <= i - 1 && !Releases(events, ttl, i);
    }
  }

  /** The latch is hot after an event exactly when it is held. */
  lemma {:induction false} LatchExactly(events: seq<Event>, ttl: nat, i: nat)
    requires Clocked(events) && i < |events|
    ensures Hot(Latched(StateBefore(events, ttl, i + 1))) <==> Held(events, ttl, i)
  {
    if i == 0 {
      assert StateBefore(events, ttl, 1) == After(None, ttl, events[0]);
      if HotAt(events, 0) {
        UnreleasedHeld(events, ttl, 0, 0);
      }
    } else {
      LatchExactly(events, ttl, i - 1);
      HeldStep(events, ttl, i);
      LatchStep(events, ttl, i);
    }
  }

  lemma LatchStep(events: seq<Event>, ttl: nat, i: nat)
    requires Clocked(events) && 0 < i < |events|
    ensures Hot(Latched(StateBefore(events, ttl, i + 1)))
      <==> HotAt(events, i) || (Hot(Latched(StateBefore(events, ttl, i))) && !Releases(events, ttl, i))
  {
    var before := StateBefore(events, ttl, i);
    assert StateBefore(events, ttl, i + 1) == After(before, ttl, events[i]);
    assert before == After(StateBefore(events, ttl, i - 1), ttl, events[i - 1]);
    if events[i].Evaluate? && events[i - 1].Evaluate? {
      assert before.value.updatedAt == events[i - 1].stored > 0;
      assert Expired(before, ttl, events[i].checked) <==> LongGap(events, ttl, i);
    }
  }

  /**
   When new local work is allowed: exactly when every hot sample so far has been followed by a gap of
   at least the cooldown time between consecutive evaluations, a clearing, or a bypassed nominal sample.
   */
  lemma AllowedExactly(events: seq<Event>, ttl: nat, i: nat)
    requires Clocked(events) && i < |events| && events[i].Evaluate?
    ensures DecisionAt(events, ttl, i).action == Allow <==> !Held(events, ttl, i)
    ensures DecisionAt(events, ttl, i).action == Deny <==> events[i].sample == Severe || events[i].sample == Critical
  {
    LatchExactly(events, ttl, i);
    assert StateBefore(events, ttl, i + 1) == After(StateBefore(events, ttl, i), ttl, events[i]);
  }

  ghost predicate Plain(events: seq<Event>) {
    forall i | 0 <= i < |events| :: events[i].Evaluate? && !events[i].bypass
  }

  lemma WithoutGapHeld(events: seq<Event>, ttl: nat, h: nat, i: nat)
    requires Plain(events) && h <= i < |events| && HotAt(events, h)
    requires forall k: nat | h < k <= i :: !LongGap(events, ttl, k)
    ensures Held(events, ttl, i)
  {
    assert forall k: nat | h < k <= i :: !Releases(events, ttl, k);
  }

  /** Without bypass and clearing, an allow after a hot sample needs a gap in between. */
  lemma AllowAfterHotNeedsGap(events: seq<Event>, ttl: nat, h: nat, i: nat)
    requires Clocked(events) && Plain(events) && h < i < |events| && HotAt(events, h)
    requires DecisionAt(events, ttl, i).action == Allow
    ensures exists k: nat :: h < k <= i && LongGap(events, ttl, k)
  {
    AllowedExactly(events, ttl, i);
    if forall k: nat | h < k <= i :: !LongGap(events, ttl, k) {
      WithoutGapHeld(events, ttl, h, i);
    }
  }

  /** Conversely, once such a gap has passed and no sample since was hot, the next ones are allowed. */
  lemma AllowedAfterGap(events: seq<Event>, ttl: nat, k: nat, i: nat)
    requires Clocked(events) && Plain(events) && 0 < k <= i < |events| && LongGap(events, ttl, k)
    requires forall j: nat | k <= j <= i :: !HotAt(events, j)
    ensures DecisionAt(events, ttl, i).action == Allow
  {
    AllowedExactly(events, ttl, i);
    assert Releases(events, ttl, k);
  }

  /** Polling faster than the cooldown holds the latch for ever, however cool it gets. */
  lemma FrequentPollingNeverAllows(events: seq<Event>, ttl: nat, h: nat, i: nat)
    requires Clocked(events) && Plain(events) && h <= i < |events| && HotAt(events, h)
    requires forall k: nat | h < k <= i :: events[k].checked - events[k - 1].stored < ttl
    ensures DecisionAt(events, ttl, i).action != Allow
  {
    AllowedExactly(events, ttl, i);
    WithoutGapHeld(events, ttl, h, i);
  }

  /** While no later sample is hot and nothing releases it, the latch keeps its level through unknown samples and is fair from the first nominal one on. */
  lemma {:induction false} LatchLevelExactly(events: seq<Event>, ttl: nat, h: nat, i: nat)
    requires Clocked(events) && h <= i < |events| && HotAt(events, h)
    requires forall k: nat | h < k <= i :: !Releases(events, ttl, k) && !HotAt(events, k)
    ensures events[i].Evaluate?
    ensures DecisionAt(events, ttl, i).latched
      == if forall k: nat | h < k <= i :: events[k].Evaluate? ==> events[k].sample == Unknown then events[h].sample else Fair
  {
    if h < i {
      assert !Releases(events, ttl, i);
      LatchLevelExactly(events, ttl, h, i - 1);
      var before := StateBefore(events, ttl, i);
      assert before == After(StateBefore(events, ttl, i - 1), ttl, events[i - 1]);
      assert Latched(before) == DecisionAt(events, ttl, i - 1).latched;
      assert before.value.updatedAt == events[i - 1].stored > 0;
      assert Expired(before, ttl, events[i].checked) <==> LongGap(events, ttl, i);
    }
  }

  /** After a clearing the controller decides as one that has just been set up: nothing from before it matters. */
  lemma {:induction false} ClearedIsNew(events: seq<Event>, ttl: nat, k: nat, i: nat)
    requires k < i <= |events| && events[k].ClearLatch?
    ensures StateBefore(events, ttl, i) == StateBefore(events[k + 1..], ttl, i - k - 1)
    ensures i < |events| && events[i].Evaluate? ==> DecisionAt(events, ttl, i) == DecisionAt(events[k + 1..], ttl, i - k - 1)
  {
    if i > k + 1 {
      ClearedIsNew(events, ttl, k, i - 1);
    }
  }

  // ---------- the history ----------

  datatype Sampled = Sampled(decision: Decision, at: int)

  function LastOf(s: seq<Sampled>, limit: nat): seq<Sampled> {
    if |s| <= limit then s else s[|s| - limit..]
  }

  lemma LastOfExactly(s: seq<Sampled>, limit: nat)
    ensures var r := LastOf(s, limit); |r| == (if |s| < limit then |s| else limit) && s[|s| - |r|..] == r
  {
  }

  /** Everything that event `i` decided: nothing when it clears the latch. */
  function DecidedAt(events: seq<Event>, ttl: nat, i: nat): seq<Sampled>
    requires i < |events|
  {
    if events[i].Evaluate? then [Sampled(DecisionAt(events, ttl, i), events[i].stored)] else []
  }

  /** Everything that the first `n` events decided. */
  function Decided(events: seq<Event>, ttl: nat, n: nat): seq<Sampled>
    requires n <= |events|
  {
    if n == 0 then [] else Decided(events, ttl, n - 1) + DecidedAt(events, ttl, n - 1)
  }

  /** Every evaluation so far is listed with its decision and time. */
  lemma {:induction false} DecisionsListed(events: seq<Event>, ttl: nat, n: nat, i: nat)
    requires i < n <= |events| && events[i].Evaluate?
    ensures Sampled(DecisionAt(events, ttl, i), events[i].stored) in Decided(events, ttl, n)
  {
    if i < n - 1 {
      DecisionsListed(events, ttl, n - 1, i);
    }
  }

  /** What the history file holds then, trimmed at each decision. */
  function History(events: seq<Event>, ttl: nat, limit: nat, n: nat): seq<Sampled>
    requires n <= |events|
  {
    if n == 0 then [] else LastOf(History(events, ttl, limit, n - 1) + DecidedAt(events, ttl, n - 1), limit)
  }

  lemma TrimTwice(s: seq<Sampled>, t: seq<Sampled>, limit: nat)
    requires |t| <= 1 && limit > 0
    ensures LastOf(LastOf(s, limit) + t, limit) == LastOf(s + t, limit)
  {
    if |s| > limit {
      var a := |s| - limit;
      assert s[a..] + t == (s + t)[a..];
      assert (s + t)[a..][|t|..] == (s + t)[a + |t|..];
    }
  }

  /** Trimming at every decision keeps the same as trimming once: the last decisions of the whole run. */
  lemma {:induction false} HistoryIsLastDecisions(events: seq<Event>, ttl: nat, limit: nat, n: nat)
    requires n <= |events| && limit > 0
    ensures History(events, ttl, limit, n) == LastOf(Decided(events, ttl, n), limit)
  {
    if n > 0 {
      HistoryIsLastDecisions(events, ttl, limit, n - 1);
      var before, last := Decided(events, ttl, n - 1), DecidedAt(events, ttl, n - 1);
      TrimTwice(before, last, limit);
      assert Decided(events, ttl, n) == before + last;
      assert History(events, ttl, limit, n) == LastOf(LastOf(before, limit) + last, limit);
    } else {
      assert Decided(events, ttl, n) == [];
    }
  }

  class ThermalController {
    const ttl: nat
    const historyLimit: nat
    var state: Option<Stored>
    var history: seq<Sampled>

    constructor (cooldownSeconds: int, limit: int)
      ensures ttl == (if cooldownSeconds < 0 then 0 else cooldownSeconds) && historyLimit == if limit < 24 then 24 else limit
      ensures state == None && history == []
    {
      ttl := if cooldownSeconds < 0 then 0 else cooldownSeconds;
      historyLimit := if limit < 24 then 24 else limit;
      state, history := None, [];
    }

    method Evaluate(pressure: string, bypass: bool, checked: int, stored: int) returns (decision: Decision)
      modifies this
      ensures decision == Decide(old(state), ttl, NormalizePressure(pressure), bypass, checked)
      ensures state == Some(Stored(decision, stored))
      ensures history == LastOf(old(history) + [Sampled(decision, stored)], historyLimit)
    {
      var sample := NormalizePressure(pressure);
      var previous := Latched(state);
      var expired := state.None? || state.value.updatedAt <= 0 || ttl <= 0 || checked - state.value.updatedAt >= ttl;
      var latched, action;
      if sample == Severe || sample == Critical {
        latched, action := sample, Deny;
      } else if sample == Fair {
        latched, action := Fair, Cooldown;
      } else if sample == Nominal {
        if !bypass && Hot(previous) && !expired {
          latched, action := Fair, Cooldown;
        } else {
          latched, action := Nominal, Allow;
        }
      } else {
        latched := if previous != Unknown && !expired then previous else Unknown;
        action := if Hot(latched) then Cooldown else Allow;
      }
      decision := Decision(sample, latched, action);
      StoreState(decision, stored);
    }

    method StoreState(decision: Decision, now: int)
      modifies this
      ensures state == Some(Stored(decision, now))
      ensures history == LastOf(old(history) + [Sampled(decision, now)], historyLimit)
    {
      state := Some(Stored(decision, now));
      history := history + [Sampled(decision, now)];
      if |history| > historyLimit {
        history := history[|history| - historyLimit..];
      }
    }

    method ClearLatch()
      modifies this`state
      ensures state == None
    {
      state := None;
    }
  }
}
