module RefreshCoalescing {
  // Background refresh coalescing of the mail assistant:
  // `refresh_in_background`, `start_background_refresh` and the queueing part of
  // `context` in examples/mail_assistant/web_app.py, with the snapshot steps of
  // `MailAssistantService` in examples/mail_assistant/services.py.
  //
  // The request handlers run between two awaits of the task, so the task is cut
  // at its awaits: it is created, begins a scan, the worker thread publishes the
  // snapshot (or raises), and the task resumes.  Requests may come in between
  // any two of these steps.

  import opened Common

  // ------------------------------------------------------------------- windows

  const MAX_WINDOW_DAYS := 25550

  datatype WindowError = BadUnit | BadValue

  /** `window_days`. */
  function WindowDays(value: int, unit: string): (r: Result<int, WindowError>)
    ensures r.Ok? ==> 1 <= r.value <= MAX_WINDOW_DAYS
    ensures r.Ok? <==> (unit == "days" || unit == "weeks") && 1 <= value <= 3650
    ensures r.Ok? && unit == "days" ==> r.value == value
    ensures r.Ok? && unit == "weeks" ==> r.value == 7 * value
    ensures r == Err(BadUnit) <==> unit != "days" && unit != "weeks"
  {
    if unit != "days" && unit != "weeks" then Err(BadUnit)
    else if !(1 <= value <= 3650) then Err(BadValue)
    else Ok(value * (if unit == "weeks" then 7 else 1))
  }

  /** `_snapshot_covers_window`; None is a snapshot of all mail. */
  predicate Covers(available: Option<int>, requested: int) {
    available.None? || available.value >= requested
  }

  // --------------------------------------------------------------------- state

  /** Idle stands for no task or a task that is done. */
  datatype Task =
    | Idle
    | Created(days: int)
    | Scanning(days: int)
    | Published(days: int)
    | ScanFailed(days: int)

  datatype State = State(
    task: Task,
    requested: Option<int>,
    target: Option<int>,
    error: bool,
    coverage: Option<int>,
    revision: nat)

  datatype Event =
    | Start(days: int)       // start_background_refresh
    | View(days: int)        // the queueing part of context
    | Begin                  // the task runs up to its await
    | Publish                // the worker thread replaces the snapshot
    | Raise                  // the worker thread raises
    | Resume                 // the task continues after its await
    | RemoveMessages         // a snapshot step that keeps the coverage

  function Queue(s: State, days: int): State {
    if s.requested.None? || days > s.requested.value then s.(requested := Some(days)) else s
  }

  function StartStep(s: State, days: int): State {
    if s.task.Idle? then s.(requested := None, task := Created(days)) else Queue(s, days)
  }

  function ViewStep(s: State, days: int): State {
    if Covers(s.coverage, days) then s
    else if s.task.Idle? then StartStep(s, days)
    else Queue(s, days)
  }

  function ResumeStep(s: State): State {
    match s.task
    case ScanFailed(_) => s.(task := Idle, error := true)
    case Published(_) =>
      if s.requested.None? || Covers(s.coverage, s.requested.value) then
        s.(requested := None, task := Idle)
      else
        s.(requested := None, error := false, target := s.requested, task := Scanning(s.requested.value))
    case _ => s
  }

  /** One atomic step; an event that is not enabled changes nothing. */
  function Step(s: State, e: Event): State {
    match e
    case Start(days) => StartStep(s, days)
    case View(days) => ViewStep(s, days)
    case Begin =>
      if s.task.Created? then s.(error := false, target := Some(s.task.days), task := Scanning(s.task.days)) else s
    case Publish =>
      if s.task.Scanning? then
        s.(coverage := Some(s.task.days), revision := s.revision + 1, task := Published(s.task.days))
      else s
    case Raise => if s.task.Scanning? then s.(task := ScanFailed(s.task.days)) else s
    case Resume => ResumeStep(s)
    case RemoveMessages => s.(revision := s.revision + 1)
  }

  /** Coverage once the stored snapshot, if any, is loaded; the empty snapshot counts as one of all mail. */
  function StartCoverage(stored: Option<Option<int>>): Option<int> {
    if stored.Some? then stored.value else None
  }

  /** Right after `lifespan` created the first task. */
  function StartState(stored: Option<Option<int>>, days: int): State {
    State(Created(days), None, None, false, StartCoverage(stored), if stored.Some? then 1 else 0)
  }

  /** The mutable application state, updated by the handlers and the task. */
  class RefreshApp {
    var task: Task
    var requestedDays: Option<int>
    var targetDays: Option<int>
    var error: bool
    var coverage: Option<int>
    var revision: nat

    function Contents(): State
      reads this
    {
      State(task, requestedDays, targetDays, error, coverage, revision)
    }

    /** `create_app`, then `lifespan`: `load_cached` takes over a stored snapshot, if there is one. */
    constructor (stored: Option<Option<int>>, defaultDays: int)
      ensures Contents() == StartState(stored, defaultDays)
    {
      task, requestedDays, targetDays, error := Created(defaultDays), None, None, false;
      coverage, revision := None, 0;
      if stored.Some? {
        coverage, revision := stored.value, 1;
      }
    }

    method StartBackgroundRefresh(days: int) returns (started: bool)
      modifies this
      ensures Contents() == Step(old(Contents()), Start(days))
      ensures started <==> old(task).Idle?
    {
      if !task.Idle? {
        if requestedDays.None? || days > requestedDays.value {
          requestedDays := Some(days);
        }
        return false;
      }
      requestedDays := None;
      task := Created(days);
      return true;
    }

    method ViewWindow(days: int)
      modifies this
      ensures Contents() == Step(old(Contents()), View(days))
    {
      if !Covers(coverage, days) && task.Idle? {
        var _ := StartBackgroundRefresh(days);
      } else if !Covers(coverage, days) {
        if requestedDays.None? || days > requestedDays.value {
          requestedDays := Some(days);
        }
      }
    }

    method TaskBegins()
      requires task.Created?
      modifies this
      ensures Contents() == Step(old(Contents()), Begin)
    {
      error := false;
      targetDays := Some(task.days);
      task := Scanning(task.days);
    }

    method ScanPublishes()
      requires task.Scanning?
      modifies this
      ensures Contents() == Step(old(Contents()), Publish)
    {
      coverage := Some(task.days);
      revision := revision + 1;
      task := Published(task.days);
    }

    method ScanRaises()
      requires task.Scanning?
      modifies this
      ensures Contents() == Step(old(Contents()), Raise)
    {
      task := ScanFailed(task.days);
    }

    method TaskResumes()
      requires task.Published? || task.ScanFailed?
      modifies this
      ensures Contents() == Step(old(Contents()), Resume)
    {
      if task.ScanFailed? {
        error := true;
        task := Idle;
        return;
      }
      var pending := requestedDays;
      if pending.None? || Covers(coverage, pending.value) {
        requestedDays := None;
        task := Idle;
        return;
      }
      requestedDays := None;
      error := false;
      targetDays := pending;
      task := Scanning(pending.value);
    }
  }

  // ------------------------------------------------------------------- monitor

  /**
   * A run with its history: the windows used to start the current task or
   * queued while it ran, and the windows it has scanned, in order.
   */
  datatype Monitor = Monitor(state: State, asked: set<int>, targets: seq<int>, failed: bool)

  /** The window that an event asks the (current or new) task for, if any. */
  function Asks(s: State, e: Event): Option<int> {
    match e
    case Start(days) => Some(days)
    case View(days) => if Covers(s.coverage, days) then None else Some(days)
    case _ => None
  }

  function Observe(m: Monitor, e: Event): Monitor {
    var s, s' := m.state, Step(m.state, e);
    var asks := Asks(s, e);
    var starts := asks.Some? && s.task.Idle?;
    Monitor(
      s',
      if starts then {asks.value} else if asks.Some? then m.asked + {asks.value} else m.asked,
      if starts then [] else if s'.task.Scanning? && !s.task.Scanning? then m.targets + [s'.task.days] else m.targets,
      if starts then false else m.failed || (s'.task.ScanFailed?))
  }

  function Run(m: Monitor, events: seq<Event>): Monitor {
    if events == [] then m else Observe(Run(m, events[..|events| - 1]), events[|events| - 1])
  }

  function Initial(stored: Option<Option<int>>, days: int): Monitor {
    Monitor(StartState(stored, days), {days}, [], false)
  }

  ghost predicate Increasing(s: seq<int>) {
    forall i, j :: 0 <= i < j < |s| ==> s[i] < s[j]
  }

  /** What every step keeps for a task none of whose scans raised. */
  ghost predicate Inv(m: Monitor) {
    var s := m.state;
    && Increasing(m.targets)
    && (forall t :: t in m.targets ==> t in m.asked)
    && (s.task.ScanFailed? ==> m.failed)
    && (s.requested.Some? && !s.task.Idle? ==> s.requested.value in m.asked)
    && (s.task.Created? ==> m.targets == [] && s.task.days in m.asked)
    && (s.task.Scanning? || s.task.Published? ==> m.targets != [] && m.targets[|m.targets| - 1] == s.task.days)
    && (s.task.Published? ==> s.coverage == Some(s.task.days))
    && (!s.task.Idle? ==> forall a :: a in m.asked ==>
          a <= s.task.days || (s.requested.Some? && a <= s.requested.value))
    && (s.task.Idle? && !m.failed ==> forall a :: a in m.asked ==> Covers(s.coverage, a))
  }

  lemma RequestKeepsInv(m: Monitor, e: Event)
    requires Inv(m) && (e.Start? || e.View?)
    ensures Inv(Observe(m, e))
  {
  }

  lemma ScanKeepsInv(m: Monitor, e: Event)
    requires Inv(m) && (e.Begin? || e.Publish? || e.Raise? || e.RemoveMessages?)
    ensures Inv(Observe(m, e))
  {
  }

  lemma ResumeKeepsInv(m: Monitor)
    requires Inv(m)
    ensures Inv(Observe(m, Resume))
  {
  }

  lemma StepKeepsInv(m: Monitor, e: Event)
    requires Inv(m)
    ensures Inv(Observe(m, e))
  {
    hide Inv, Observe;
    if e.Start? || e.View? {
      RequestKeepsInv(m, e);
    } else if e.Resume? {
      ResumeKeepsInv(m);
    } else {
      ScanKeepsInv(m, e);
    }
  }

  /** Every interleaving of requests and task steps keeps the invariant. */
  lemma {:induction false} RunKeepsInv(m: Monitor, events: seq<Event>)
    requires Inv(m)
    ensures Inv(Run(m, events))
  {
    if events != [] {
      RunKeepsInv(m, events[..|events| - 1]);
      StepKeepsInv(Run(m, events[..|events| - 1]), events[|events| - 1]);
    }
  }

  /**
   * No request is lost: when a task none of whose scans raised has ended, the
   * snapshot covers every window used to start it or queued while it ran.
   */
  lemma NoRequestIsLost(stored: Option<Option<int>>, days: int, events: seq<Event>)
    ensures var m := Run(Initial(stored, days), events);
            m.state.task.Idle? && !m.failed ==> forall a :: a in m.asked ==> Covers(m.state.coverage, a)
  {
    RunKeepsInv(Initial(stored, days), events);
  }

  /** Every replaced snapshot has a new revision number: steps only raise it, and the coverage changes only with it. */
  lemma {:induction false} RevisionTellsCoverage(m: Monitor, events: seq<Event>, n: nat)
    requires n <= |events|
    ensures var before, after := Run(m, events[..n]).state, Run(m, events).state;
            && before.revision <= after.revision
            && (before.revision == after.revision ==> before.coverage == after.coverage)
  {
    hide Observe;
    if n == |events| {
      assert events[..n] == events;
    } else {
      var last := |events| - 1;
      RevisionTellsCoverage(m, events[..last], n);
      assert events[..last][..n] == events[..n];
      RevisionStep(Run(m, events[..last]), events[last]);
    }
  }

  lemma RevisionStep(m: Monitor, e: Event)
    ensures var s, s' := m.state, Observe(m, e).state;
            && s.revision <= s'.revision <= s.revision + 1
            && (s'.revision == s.revision ==> s'.coverage == s.coverage)
            && (e.RemoveMessages? || (e.Publish? && s.task.Scanning?) ==> s'.revision == s.revision + 1)
  {
  }

  /** What the status page shows of the task: its target while it scans, and after it an error exactly when its scan raised. */
  ghost predicate Shown(m: Monitor) {
    var s := m.state;
    && (s.task.Idle? ==> (s.error <==> m.failed))
    && (s.task.Created? ==> !m.failed)
    && (s.task.Scanning? || s.task.Published? ==> !s.error && !m.failed && s.target == Some(s.task.days))
    && (s.task.ScanFailed? ==> !s.error && m.failed && s.target == Some(s.task.days))
  }

  lemma ShownStep(m: Monitor, e: Event)
    requires Shown(m)
    ensures Shown(Observe(m, e))
  {
  }

  lemma {:induction false} RunIsShown(stored: Option<Option<int>>, days: int, events: seq<Event>)
    ensures Shown(Run(Initial(stored, days), events))
  {
    hide Observe;
    if events != [] {
      RunIsShown(stored, days, events[..|events| - 1]);
      ShownStep(Run(Initial(stored, days), events[..|events| - 1]), events[|events| - 1]);
    }
  }

  /** The first task is created at once with the default window, over the stored snapshot or an empty one. */
  lemma StartMeans(stored: Option<Option<int>>, days: int)
    ensures var s := StartState(stored, days);
            && s.task == Created(days) && !s.error && s.target.None? && s.requested.None?
            && (match stored
                case None => s.coverage.None? && s.revision == 0
                case Some(coverage) => s.coverage == coverage && s.revision == 1)
  {
  }

  // ------------------------------------------------------------ raising scans

  ghost predicate AllCovered(m: Monitor) {
    forall a :: a in m.asked ==> Covers(m.state.coverage, a)
  }

  function LastTarget(m: Monitor): int
    requires m.targets != []
  {
    m.targets[|m.targets| - 1]
  }

  /** The raising scan's window and the queued one are all that can be uncovered. */
  ghost predicate FailInv(m: Monitor) {
    var s := m.state;
    && (m.failed ==> s.task.ScanFailed? || s.task.Idle?)
    && (m.failed ==> m.targets != [] && LastTarget(m) in m.asked)
    && (s.task.ScanFailed? ==> m.failed && LastTarget(m) == s.task.days)
    && (s.task.Idle? && m.failed ==>
          && (s.requested.Some? ==> s.requested.value in m.asked)
          && forall a :: a in m.asked ==> a <= LastTarget(m) || (s.requested.Some? && a <= s.requested.value))
  }

  lemma RequestKeepsFailInv(m: Monitor, e: Event)
    requires Inv(m) && FailInv(m) && (e.Start? || e.View?)
    ensures FailInv(Observe(m, e))
  {
  }

  lemma ScanKeepsFailInv(m: Monitor, e: Event)
    requires Inv(m) && FailInv(m) && !e.Start? && !e.View?
    ensures FailInv(Observe(m, e))
  {
  }

  lemma {:induction false} RunKeepsFailInv(m: Monitor, events: seq<Event>)
    requires Inv(m) && FailInv(m)
    ensures FailInv(Run(m, events))
  {
    hide Inv, FailInv, Observe;
    if events != [] {
      var n := |events| - 1;
      RunKeepsInv(m, events[..n]);
      RunKeepsFailInv(m, events[..n]);
      if events[n].Start? || events[n].View? {
        RequestKeepsFailInv(Run(m, events[..n]), events[n]);
      } else {
        ScanKeepsFailInv(Run(m, events[..n]), events[n]);
      }
    }
  }

  /**
   * When a task has ended, every window it was asked for is covered exactly when
   * no scan raised, or the snapshot happens to cover both the window of the
   * raising scan and the one queued at its end.
   */
  lemma AllCoveredIff(stored: Option<Option<int>>, days: int, events: seq<Event>)
    ensures var m := Run(Initial(stored, days), events);
            m.state.task.Idle? ==>
              (m.failed ==> m.targets != []) &&
              (AllCovered(m) <==>
               (m.failed ==>
                  && Covers(m.state.coverage, LastTarget(m))
                  && (m.state.requested.Some? ==> Covers(m.state.coverage, m.state.requested.value))))
  {
    hide Run;
    RunKeepsInv(Initial(stored, days), events);
    RunKeepsFailInv(Initial(stored, days), events);
  }

  /** The same, told from the state in which the scan raises. */
  lemma RaiseLeavesUncoveredIff(stored: Option<Option<int>>, days: int, events: seq<Event>)
    requires Run(Initial(stored, days), events).state.task.Scanning?
    ensures var s := Run(Initial(stored, days), events).state;
            var m := Run(Initial(stored, days), events + [Raise, Resume]);
            && m.state.task.Idle? && m.state.coverage == s.coverage
            && (AllCovered(m) <==>
                Covers(s.coverage, s.task.days) && (s.requested.Some? ==> Covers(s.coverage, s.requested.value)))
  {
    var all := events + [Raise, Resume];
    assert all[..|all| - 1] == events + [Raise];
    assert (events + [Raise])[..|events|] == events;
    RunKeepsInv(Initial(stored, days), events);
    AllCoveredIff(stored, days, all);
  }

  /** What runs without explicit starts keep: scans are only made for uncovered windows. */
  ghost predicate ViewInv(m: Monitor) {
    && Widening(m.state)
    && (m.state.task.ScanFailed? ==> !Covers(m.state.coverage, m.state.task.days))
    && (m.state.task.Idle? && m.failed ==> m.targets != [] && !Covers(m.state.coverage, LastTarget(m)))
  }

  lemma StepKeepsViewInv(m: Monitor, e: Event)
    requires Inv(m) && FailInv(m) && ViewInv(m) && !e.Start?
    ensures ViewInv(Observe(m, e))
  {
  }

  /** Where only views ask, a task has covered everything it was asked for exactly when none of its scans raised. */
  lemma {:induction false} ViewsCoveredIff(m: Monitor, events: seq<Event>)
    requires Inv(m) && FailInv(m) && ViewInv(m) && forall e :: e in events ==> !e.Start?
    ensures var m' := Run(m, events); ViewInv(m') && (m'.state.task.Idle? ==> (AllCovered(m') <==> !m'.failed))
  {
    hide Observe;
    RunKeepsInv(m, events);
    RunKeepsFailInv(m, events);
    if events != [] {
      var n := |events| - 1;
      assert events == events[..n] + [events[n]];
      ViewsCoveredIff(m, events[..n]);
      RunKeepsInv(m, events[..n]);
      RunKeepsFailInv(m, events[..n]);
      StepKeepsViewInv(Run(m, events[..n]), events[n]);
    }
  }

  /** The windows that a run asks for are the ones `window_days` lets through. */
  ghost predicate Windows(events: seq<Event>) {
    forall e :: e in events ==> (e.Start? || e.View? ==> 1 <= e.days <= MAX_WINDOW_DAYS)
  }

  lemma {:induction false} AskedAreWindows(m: Monitor, events: seq<Event>)
    requires Windows(events) && forall a :: a in m.asked ==> 1 <= a <= MAX_WINDOW_DAYS
    ensures forall a :: a in Run(m, events).asked ==> 1 <= a <= MAX_WINDOW_DAYS
  {
    if events != [] {
      var n := |events| - 1;
      assert events == events[..n] + [events[n]];
      AskedAreWindows(m, events[..n]);
    }
  }

  lemma {:induction false} IncreasingIsBounded(s: seq<int>)
    requires Increasing(s) && s != [] && s[0] >= 1
    ensures |s| <= s[|s| - 1]
  {
    if |s| > 1 {
      IncreasingIsBounded(s[..|s| - 1]);
      assert s[|s| - 2] < s[|s| - 1];
    }
  }

  lemma {:induction false} IncreasingInSet(s: seq<int>, bag: set<int>)
    requires Increasing(s) && forall t :: t in s ==> t in bag
    ensures |s| <= |bag|
  {
    if s != [] {
      var last := s[|s| - 1];
      forall t | t in s[..|s| - 1]
        ensures t in bag - {last}
      {
        var i :| 0 <= i < |s| - 1 && s[i] == t;
      }
      IncreasingInSet(s[..|s| - 1], bag - {last});
    }
  }

  /**
   * A task's targets strictly increase and each was asked for, so it scans at
   * most once per distinct window it was asked for, and never more than
   * MAX_WINDOW_DAYS times.
   */
  lemma TargetsIncrease(stored: Option<Option<int>>, days: int, events: seq<Event>)
    requires Windows(events) && 1 <= days <= MAX_WINDOW_DAYS
    ensures var m := Run(Initial(stored, days), events);
            Increasing(m.targets) && |m.targets| <= |m.asked| && |m.targets| <= MAX_WINDOW_DAYS
  {
    var m := Run(Initial(stored, days), events);
    RunKeepsInv(Initial(stored, days), events);
    AskedAreWindows(Initial(stored, days), events);
    IncreasingInSet(m.targets, m.asked);
    if m.targets != [] {
      assert m.targets[0] in m.targets && m.targets[|m.targets| - 1] in m.targets;
      IncreasingIsBounded(m.targets);
    }
  }

  // ------------------------------------------------------------ lost coverage

  /** Some window that was covered no longer is. */
  ghost predicate Shrinks(before: Option<int>, after: Option<int>) {
    exists w :: Covers(before, w) && !Covers(after, w)
  }

  /** A step loses coverage exactly when it publishes a scan narrower than the snapshot. */
  lemma ShrinksIffNarrower(s: State, e: Event)
    ensures Shrinks(s.coverage, Step(s, e).coverage) <==>
              e.Publish? && s.task.Scanning? && Covers(s.coverage, s.task.days + 1)
  {
    if e.Publish? && s.task.Scanning? && Covers(s.coverage, s.task.days + 1) {
      assert !Covers(Step(s, e).coverage, s.task.days + 1);
    }
  }

  /** Views never ask for what is covered, so scans that only views caused never lose coverage. */
  ghost predicate Widening(s: State) {
    && (s.task.Created? || s.task.Scanning? ==> !Covers(s.coverage, s.task.days))
    && (s.task.Published? ==> s.coverage == Some(s.task.days))
  }

  lemma {:induction false} ViewsNeverShrink(m: Monitor, events: seq<Event>, w: int)
    requires Widening(m.state) && forall e :: e in events ==> !e.Start?
    ensures Widening(Run(m, events).state)
    ensures Covers(m.state.coverage, w) ==> Covers(Run(m, events).state.coverage, w)
  {
    if events != [] {
      var n := |events| - 1;
      assert events == events[..n] + [events[n]];
      ViewsNeverShrink(m, events[..n], w);
    }
  }

  // ------------------------------------------------------- the start-up refresh

  /** A scan that has ended. */
  datatype Scan = Scan(days: int, published: bool)

  /** The scans that end during a run, in order. */
  function Scans(m: Monitor, events: seq<Event>): seq<Scan> {
    if events == [] then []
    else
      var n := |events| - 1;
      var task := Run(m, events[..n]).state.task;
      Scans(m, events[..n]) +
      (if task.Scanning? && (events[n].Publish? || events[n].Raise?) then [Scan(task.days, events[n].Publish?)] else [])
  }

  /** The start-up scan has published a window narrower than `w`, and no later scan has reached `w`. */
  ghost predicate LostAtStartUp(scans: seq<Scan>, days: int, w: int) {
    && scans != [] && scans[0].published && w > days
    && forall k :: 1 <= k < |scans| && scans[k].published ==> scans[k].days < w
  }

  ghost predicate LostExactly(start: Option<int>, coverage: Option<int>, scans: seq<Scan>, days: int) {
    forall w :: Covers(start, w) ==> (!Covers(coverage, w) <==> LostAtStartUp(scans, days, w))
  }

  ghost predicate StartUpInv(start: Option<int>, days: int, s: State, scans: seq<Scan>) {
    && (scans == [] ==> s.coverage == start && (s.task == Created(days) || s.task == Scanning(days)))
    && (scans != [] ==> scans[0].days == days)
    && (scans != [] && (s.task.Created? || s.task.Scanning?) ==> !Covers(s.coverage, s.task.days))
    && (s.task.Published? ==> s.coverage == Some(s.task.days))
    && LostExactly(start, s.coverage, scans, days)
  }

  /** What ending scans do to the lost windows. */
  lemma EndedScan(start: Option<int>, days: int, s: State, scans: seq<Scan>, e: Event)
    requires StartUpInv(start, days, s, scans) && s.task.Scanning? && (e.Publish? || e.Raise?)
    ensures LostExactly(start, Step(s, e).coverage, scans + [Scan(s.task.days, e.Publish?)], days)
  {
    var d, longer := s.task.days, scans + [Scan(s.task.days, e.Publish?)];
    forall w | Covers(start, w)
      ensures !Covers(Step(s, e).coverage, w) <==> LostAtStartUp(longer, days, w)
    {
      assert !Covers(s.coverage, w) <==> LostAtStartUp(scans, days, w);
      assert longer[|scans|] == Scan(d, e.Publish?);
      assert forall k :: 0 <= k < |scans| ==> longer[k] == scans[k];
    }
  }

  lemma StepKeepsStartUpInv(start: Option<int>, days: int, s: State, scans: seq<Scan>, e: Event)
    requires StartUpInv(start, days, s, scans) && !e.Start?
    ensures var ended := s.task.Scanning? && (e.Publish? || e.Raise?);
            StartUpInv(start, days, Step(s, e), if ended then scans + [Scan(s.task.days, e.Publish?)] else scans)
  {
    hide LostExactly;
    if s.task.Scanning? && (e.Publish? || e.Raise?) {
      EndedScan(start, days, s, scans, e);
    }
  }

  lemma {:induction false} RunKeepsStartUpInv(stored: Option<Option<int>>, days: int, events: seq<Event>)
    requires forall e :: e in events ==> !e.Start?
    ensures StartUpInv(StartCoverage(stored), days, Run(Initial(stored, days), events).state, Scans(Initial(stored, days), events))
  {
    hide StartUpInv, Step;
    var m := Initial(stored, days);
    if events == [] {
      StartUpInvHolds(stored, days);
    } else {
      var n := |events| - 1;
      assert events == events[..n] + [events[n]];
      RunKeepsStartUpInv(stored, days, events[..n]);
      var s, scans := Run(m, events[..n]).state, Scans(m, events[..n]);
      StepKeepsStartUpInv(StartCoverage(stored), days, s, scans, events[n]);
      assert scans + [] == scans;
    }
  }

  lemma StartUpInvHolds(stored: Option<Option<int>>, days: int)
    ensures StartUpInv(StartCoverage(stored), days, StartState(stored, days), [])
  {
  }

  /**
   * Without explicit starts only the start-up refresh can lose coverage: a
   * window covered at the beginning is uncovered exactly when the start-up scan
   * has published, was narrower, and no later scan has reached the window.
   */
  lemma LostAtStartUpIff(stored: Option<Option<int>>, days: int, events: seq<Event>, w: int)
    requires (forall e :: e in events ==> !e.Start?) && Covers(StartCoverage(stored), w)
    ensures !Covers(Run(Initial(stored, days), events).state.coverage, w) <==>
            LostAtStartUp(Scans(Initial(stored, days), events), days, w)
  {
    hide LostAtStartUp, Run, Scans;
    RunKeepsStartUpInv(stored, days, events);
  }

  /** Starting the program with a year of cached mail drops all but the default week. */
  lemma StartUpShrinks()
    ensures var m := Run(Initial(Some(Some(365)), 7), [Begin, Publish]);
            Covers(StartCoverage(Some(Some(365))), 200) && !Covers(m.state.coverage, 200)
  {
    var m := Initial(Some(Some(365)), 7);
    assert [Begin, Publish][..1] == [Begin] && [Begin][..0] == [];
    assert Run(m, [Begin]) == Observe(m, Begin);
    assert Run(m, [Begin, Publish]) == Observe(Observe(m, Begin), Publish);
  }

  lemma RunFour(m: Monitor, a: Event, b: Event, c: Event, d: Event)
    ensures Run(m, [a, b, c, d]) == Observe(Observe(Observe(Observe(m, a), b), c), d)
  {
    hide Observe;
    var es := [a, b, c, d];
    assert es[..3][..2] == es[..2] && es[..2][..1] == es[..1] && es[..1][..0] == [];
    assert Run(m, es[..1]) == Observe(m, a);
    assert Run(m, es[..2]) == Observe(Observe(m, a), b);
    assert Run(m, es[..3]) == Observe(Observe(Observe(m, a), b), c);
  }

  /** An explicit narrower start does lose coverage: a window shown as covered is dropped. */
  lemma NarrowStartShrinks()
    ensures var idle := Monitor(State(Idle, None, None, false, Some(365), 1), {}, [], false);
            var m := Run(idle, [Start(7), Begin, Publish, Resume]);
            && Covers(idle.state.coverage, 200)
            && m.state.task.Idle? && !m.failed && !Covers(m.state.coverage, 200)
  {
    FreshStart(Monitor(State(Idle, None, None, false, Some(365), 1), {}, [], false));
  }

  lemma FreshStart(m: Monitor)
    requires m.state.task.Idle?
    ensures var m' := Run(m, [Start(7), Begin, Publish, Resume]);
            m'.state.task.Idle? && !m'.failed && m'.asked == {7} && m'.state.coverage == Some(7)
  {
    RunFour(m, Start(7), Begin, Publish, Resume);
    var m1 := Observe(m, Start(7));
    assert m1.state.task == Created(7) && m1.state.requested.None? && m1.asked == {7} && !m1.failed;
    var m2 := Observe(m1, Begin);
    var m3 := Observe(m2, Publish);
    assert m3.state.task == Published(7) && m3.state.requested.None? && m3.asked == {7} && !m3.failed;
  }

  /** A scan that raises drops what was queued: the next start forgets it. */
  lemma FailureDropsQueue()
    ensures var failed := Run(Initial(Some(Some(0)), 7), [Begin, View(30), Raise, Resume]);
            var m := Run(failed, [Start(7), Begin, Publish, Resume]);
            && failed.state.task.Idle? && 30 in failed.asked
            && m.state.task.Idle? && !m.failed && m.asked == {7} && !Covers(m.state.coverage, 30)
  {
    var m0 := Initial(Some(Some(0)), 7);
    RunFour(m0, Begin, View(30), Raise, Resume);
    var m2 := Observe(Observe(m0, Begin), View(30));
    assert m2.state.task == Scanning(7) && m2.asked == {7, 30};
    var m4 := Observe(Observe(m2, Raise), Resume);
    assert m4.state.task.Idle? && m4.asked == {7, 30};
    FreshStart(m4);
  }
}
