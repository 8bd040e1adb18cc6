/**
 Drift of the protected governance files from their approved contents
 (`GovernanceDriftMonitor` in astrata/governance/policy.py).
 */
module GovernanceDrift {
  type Path = nat

  /** The empty fingerprint of a missing file, or a hash, idealised as the content itself. */
  datatype Print = Missing | Hash(content: string)

  type Surface = map<Path, Print>

  /** Both maps are empty before the first scan. */
  datatype State = State(approved: Surface, reported: Surface)

  datatype Report = Report(initialized: bool, drifted: set<Path>, newlyReported: set<Path>)

  /** `surface.get(path, "")` */
  function Get(surface: Surface, path: Path): Print {
    if path in surface then surface[path] else Missing
  }

  function Drifted(approved: Surface, current: Surface): set<Path> {
    set p | p in current && Get(approved, p) != current[p]
  }

  function Newly(state: State, current: Surface): set<Path> {
    set p | p in Drifted(state.approved, current) && Get(state.reported, p) != Get(current, p)
  }

  function Reported(state: State, current: Surface): Surface {
    (map p | p in Drifted(state.approved, current) && p in state.reported :: state.reported[p])
    + (map p | p in Newly(state, current) :: Get(current, p))
  }

  function ScanState(state: State, current: Surface): State {
    if state.approved == map[] then State(current, map[]) else State(state.approved, Reported(state, current))
  }

  function ScanReport(state: State, current: Surface): Report {
    if state.approved == map[] then Report(true, {}, {})
    else Report(false, Drifted(state.approved, current), Newly(state, current))
  }

  // ---------- runs ----------

  datatype Event = Scan(current: Surface) | Approve(current: Surface)

  function After(state: State, e: Event): State {
    match e
    case Scan(current) => ScanState(state, current)
    case Approve(current) => State(current, map[])
  }

  function StateBefore(events: seq<Event>, n: nat): State
    requires n <= |events|
  {
    if n == 0 then State(map[], map[]) else After(StateBefore(events, n - 1), events[n - 1])
  }

  function ReportAt(events: seq<Event>, n: nat): Report
    requires n < |events| && events[n].Scan?
  {
    ScanReport(StateBefore(events, n), events[n].current)
  }

  /** Every look at the surface gives a fingerprint to each protected path, and there are some. */
  ghost predicate Looks(events: seq<Event>, watched: set<Path>) {
    watched != {} && forall i | 0 <= i < |events| :: events[i].current.Keys == watched
  }

  /** The event whose contents are the baseline before event `n`: the last approval, or the first event. */
  function BaselineAt(events: seq<Event>, n: nat): (b: nat)
    requires 0 < n <= |events|
    ensures b < n
  {
    if n == 1 || events[n - 1].Approve? then n - 1 else BaselineAt(events, n - 1)
  }

  /** Only the first scan and approvals change the baseline. */
  lemma {:induction false} BaselineExactly(events: seq<Event>, watched: set<Path>, n: nat)
    requires Looks(events, watched) && 0 < n <= |events|
    ensures StateBefore(events, n).approved == events[BaselineAt(events, n)].current
    ensures StateBefore(events, n).approved != map[]
  {
    if n == 1 {
      assert StateBefore(events, 1) == After(StateBefore(events, 0), events[0]);
    } else {
      BaselineExactly(events, watched, n - 1);
    }
    assert events[BaselineAt(events, n)].current.Keys == watched;
  }

  /** What the scan just before found at a drifted path; nothing right after a baseline was set. */
  function Remembered(events: seq<Event>, n: nat, path: Path): Print
    requires n <= |events|
  {
    if n >= 2 && events[n - 1].Scan? && path in Drifted(StateBefore(events, n - 1).approved, events[n - 1].current)
    then Get(events[n - 1].current, path)
    else Missing
  }

  lemma GetReported(state: State, current: Surface, path: Path)
    ensures Get(Reported(state, current), path)
      == if path in Drifted(state.approved, current) then Get(current, path) else Missing
  {
  }

  /** The stored reports, however long they are carried along, say no more than the scan just before. */
  lemma ReportsRememberOneScan(events: seq<Event>, watched: set<Path>, n: nat, path: Path)
    requires Looks(events, watched) && n <= |events|
    ensures Get(StateBefore(events, n).reported, path) == Remembered(events, n, path)
  {
    if n >= 2 && events[n - 1].Scan? {
      BaselineExactly(events, watched, n - 1);
      GetReported(StateBefore(events, n - 1), events[n - 1].current, path);
    } else if n == 1 {
      assert StateBefore(events, 1) == After(StateBefore(events, 0), events[0]);
    }
  }

  /** Newly reported are exactly the drifted paths whose fingerprint differs from what the previous scan found there. */
  lemma NewlyReportedExactly(events: seq<Event>, watched: set<Path>, n: nat, path: Path)
    requires Looks(events, watched) && 0 < n < |events| && events[n].Scan?
    ensures path in ReportAt(events, n).drifted
      <==> path in watched && events[n].current[path] != events[BaselineAt(events, n)].current[path]
    ensures path in ReportAt(events, n).newlyReported
      <==> path in ReportAt(events, n).drifted && events[n].current[path] != Remembered(events, n, path)
  {
    BaselineExactly(events, watched, n);
    ReportsRememberOneScan(events, watched, n, path);
  }

  /** Only the very first scan initializes, and reports nothing. */
  lemma InitializesExactly(events: seq<Event>, watched: set<Path>, n: nat)
    requires Looks(events, watched) && n < |events| && events[n].Scan?
    ensures ReportAt(events, n).initialized <==> n == 0
    ensures n == 0 ==> ReportAt(events, n) == Report(true, {}, {})
  {
    if n > 0 {
      BaselineExactly(events, watched, n);
    }
  }

  /** A drift that stays as it is is reported once. */
  lemma SameDriftReportedOnce(events: seq<Event>, watched: set<Path>, n: nat)
    requires Looks(events, watched) && 1 < n < |events| && events[n].Scan? && events[n - 1].Scan?
    requires events[n].current == events[n - 1].current
    ensures ReportAt(events, n).newlyReported == {}
  {
    forall path ensures path !in ReportAt(events, n).newlyReported {
      NewlyReportedExactly(events, watched, n, path);
      NewlyReportedExactly(events, watched, n - 1, path);
      BaselineExactly(events, watched, n);
      BaselineExactly(events, watched, n - 1);
    }
  }

  /** A missing file is newly reported exactly when the scan before found other, unapproved contents there. */
  lemma MissingReportedExactly(events: seq<Event>, watched: set<Path>, n: nat, path: Path)
    requires Looks(events, watched) && 0 < n < |events| && events[n].Scan?
    requires path in watched && events[n].current[path] == Missing
    requires path in ReportAt(events, n).drifted
    ensures path in ReportAt(events, n).newlyReported
      <==> && n >= 2 && events[n - 1].Scan? && events[n - 1].current[path] != Missing
           && events[n - 1].current[path] != events[BaselineAt(events, n)].current[path]
  {
    NewlyReportedExactly(events, watched, n, path);
    if n >= 2 {
      BaselineExactly(events, watched, n - 1);
      BaselineExactly(events, watched, n);
    }
  }

  /** So the deletion of an approved file is seen as drift by every scan, and newly reported by none. */
  lemma DeletionNeverReported(events: seq<Event>, watched: set<Path>, n: nat, path: Path, base: nat)
    requires Looks(events, watched) && 0 < n < |events| && events[n].Scan? && path in watched && base == BaselineAt(events, n)
    requires events[n].current[path] == Missing && events[base].current[path] != Missing
    requires forall i | base < i < n :: events[i].current[path] == Missing || events[i].current[path] == events[base].current[path]
    ensures path in ReportAt(events, n).drifted && path !in ReportAt(events, n).newlyReported
  {
    BaselineExactly(events, watched, n);
    NewlyReportedExactly(events, watched, n, path);
    MissingReportedExactly(events, watched, n, path);
  }

  // ---------- the monitor ----------

  /** Fingerprints of the given paths in a tree of files. */
  method GovernanceSurfaceFingerprint(files: map<Path, string>, paths: seq<Path>) returns (fingerprints: Surface)
    ensures fingerprints == map p | p in paths :: if p in files then Hash(files[p]) else Missing
  {
    fingerprints := map[];
    for i := 0 to |paths|
      invariant fingerprints.Keys == set p | p in paths[..i]
      invariant forall p | p in fingerprints :: fingerprints[p] == if p in files then Hash(files[p]) else Missing
    {
      fingerprints := fingerprints[paths[i] := if paths[i] in files then Hash(files[paths[i]]) else Missing];
    }
  }

  class GovernanceDriftMonitor {
    const protectedPaths: seq<Path>
    var stored: State

    constructor (paths: seq<Path>)
      ensures protectedPaths == paths && stored == State(map[], map[])
    {
      protectedPaths, stored := paths, State(map[], map[]);
    }

    method ScanSurface(files: map<Path, string>) returns (current: Surface, report: Report)
      modifies this
      ensures current == map p | p in protectedPaths :: if p in files then Hash(files[p]) else Missing
      ensures stored == After(old(stored), Scan(current))
      ensures report == ScanReport(old(stored), current)
    {
      current := GovernanceSurfaceFingerprint(files, protectedPaths);
      var approved := stored.approved;
      if approved == map[] {
        stored := State(current, map[]);
        return current, Report(true, {}, {});
      }
      var drifted := set p | p in current && Get(approved, p) != current[p];
      var lastReported := stored.reported;
      var newly := set p | p in drifted && Get(lastReported, p) != Get(current, p);
      var retained := map p | p in drifted && p in lastReported :: lastReported[p];
      retained := retained + map p | p in newly :: Get(current, p);
      stored := State(approved, retained);
      report := Report(false, drifted, newly);
    }

    method ApproveCurrent(files: map<Path, string>) returns (current: Surface)
      modifies this
      ensures current == map p | p in protectedPaths :: if p in files then Hash(files[p]) else Missing
      ensures stored == After(old(stored), Approve(current))
    {
      current := GovernanceSurfaceFingerprint(files, protectedPaths);
      stored := State(current, map[]);
    }
  }
}
