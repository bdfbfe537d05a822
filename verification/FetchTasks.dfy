/**
 * Background fetches: a registry of running ids, two download permits, a cancel signal that is remembered
 * until its task looks, and a commit that links the finished file at its target or leaves the target alone.
 * Every await is a place where other tasks, other requests and the user's own programs may get in between.
 */
module FetchTasks {
  import opened Wrappers
  import opened Bytes

  type FetchId(==, !new)

  /** A file of the Files tree. */
  type Name(==, !new)

  const DOWNLOAD_PERMITS: nat := 2

  /** Staging names carry a sequence number, so each belongs to one task. */
  datatype Path = Staging(task: nat) | At(name: Name)

  // ------------------------------------------------------------------
  // The registry
  // ------------------------------------------------------------------

  type Registry = map<FetchId, nat>

  function Dropped(r: Registry, id: FetchId, task: nat): Registry {
    if id in r && r[id] == task then r - {id} else r
  }

  /** The process-wide table of running fetches. A task's number stands for the identity of its signal. */
  class FetchTable {
    var running: Registry
    var issued: nat
    /** Tasks whose cancel signal has been raised and not yet been seen. */
    var signalled: set<nat>

    ghost predicate Valid()
      reads this
    {
      forall id | id in running :: running[id] < issued
    }

    constructor ()
      ensures Valid() && running == map[] && issued == 0 && signalled == {}
    {
      running, issued, signalled := map[], 0, {};
    }

    /** `register_fetch`: refused while the id is running. */
    method Register(id: FetchId) returns (task: Option<nat>)
      requires Valid()
      modifies this
      ensures Valid() && signalled == old(signalled)
      ensures task.None? <==> id in old(running)
      ensures task.None? ==> running == old(running) && issued == old(issued)
      ensures task.Some? ==> task.value !in old(running).Values && running == old(running)[id := task.value]
    {
      if id in running {
        return None;
      }
      task := Some(issued);
      running := running[id := issued];
      issued := issued + 1;
    }

    /** `unregister_fetch`: only the signal that was registered takes itself out. */
    method Unregister(id: FetchId, task: nat)
      requires Valid()
      modifies this`running
      ensures Valid() && running == Dropped(old(running), id, task)
    {
      if id in running && running[id] == task {
        running := running - {id};
      }
    }

    /** `cancel_fetch`: a signal raised before its task waits for it is kept. */
    method Cancel(id: FetchId)
      requires Valid()
      modifies this`signalled
      ensures signalled == old(signalled) + if id in running then {running[id]} else {}
    {
      if id in running {
        signalled := signalled + {running[id]};
      }
    }
  }

  // ------------------------------------------------------------------
  // Tasks, step by step
  // ------------------------------------------------------------------

  datatype Phase =
    | Waiting
    | Downloading
    | Fetched(bytes: seq<byte>)
    | Broken
    | Cancelled
    | Linked(bytes: seq<byte>)
    | NotLinked
    | Reported
    | Ended

  datatype Task = Task(id: FetchId, target: Name, notified: bool, phase: Phase)

  datatype Entry =
    | Accepted(task: nat, id: FetchId)
    | Progress(task: nat, id: FetchId)
    | Terminal(task: nat, id: FetchId, done: Option<seq<byte>>)

  /** `log` is what was accepted and what events were sent. */
  datatype World = World(tasks: seq<Task>, running: Registry, permits: nat, files: map<Path, seq<byte>>,
                         log: seq<Entry>)

  datatype Event =
    | Accepts(id: FetchId, target: Name)
    | Cancels(id: FetchId)
    | Starts(task: nat)
    | Receives(task: nat, data: seq<byte>)
    | Completes(task: nat)
    | Breaks(task: nat)
    | SeesCancel(task: nat)
    | Links(task: nat, works: bool)
    | Reports(task: nat, removed: bool)
    | Unregisters(task: nat)
    | OthersWrite(name: Name, content: Option<seq<byte>>)

  /** Still inside the `select!`: neither the download nor the cancel has won. */
  predicate Racing(t: Task) {
    t.phase.Waiting? || t.phase.Downloading?
  }

  predicate Enabled(w: World, e: Event) {
    match e
    case Accepts(id, _) => true
    case Cancels(_) => true
    case Starts(k) => k < |w.tasks| && w.tasks[k].phase.Waiting? && w.permits > 0
    case Receives(k, _) => k < |w.tasks| && w.tasks[k].phase.Downloading? && Staging(k) in w.files
    case Completes(k) => k < |w.tasks| && w.tasks[k].phase.Downloading? && Staging(k) in w.files
    case Breaks(k) => k < |w.tasks| && w.tasks[k].phase.Downloading?
    case SeesCancel(k) => k < |w.tasks| && Racing(w.tasks[k]) && w.tasks[k].notified
    case Links(k, _) => k < |w.tasks| && w.tasks[k].phase.Fetched?
    case Reports(k, _) =>
      k < |w.tasks| && (w.tasks[k].phase.Linked? || w.tasks[k].phase.NotLinked?
                        || w.tasks[k].phase.Broken? || w.tasks[k].phase.Cancelled?)
    case Unregisters(k) => k < |w.tasks| && w.tasks[k].phase.Reported?
    case OthersWrite(_, _) => true
  }

  function Enter(w: World, k: nat, phase: Phase): World
    requires k < |w.tasks|
  {
    w.(tasks := w.tasks[k := w.tasks[k].(phase := phase)])
  }

  /** Leaving the download gives its permit back. */
  function Leave(w: World, k: nat, phase: Phase): World
    requires k < |w.tasks|
  {
    Enter(w, k, phase).(permits := w.permits + if w.tasks[k].phase.Downloading? then 1 else 0)
  }

  function Noting(w: World, entry: Entry): World {
    w.(log := w.log + [entry])
  }

  function Step(w: World, e: Event): World {
    if !Enabled(w, e) then w
    else
      match e
      case Accepts(id, target) =>
        if id in w.running then w
        else Noting(w.(tasks := w.tasks + [Task(id, target, false, Waiting)], running := w.running[id := |w.tasks|]),
                    Accepted(|w.tasks|, id))
      case Cancels(id) =>
        if id in w.running && w.running[id] < |w.tasks|
        then w.(tasks := w.tasks[w.running[id] := w.tasks[w.running[id]].(notified := true)])
        else w
      case Starts(k) => Enter(w, k, Downloading).(permits := w.permits - 1, files := w.files[Staging(k) := []])
      case Receives(k, data) =>
        Noting(w.(files := w.files[Staging(k) := w.files[Staging(k)] + data]), Progress(k, w.tasks[k].id))
      case Completes(k) => Leave(w, k, Fetched(w.files[Staging(k)]))
      case Breaks(k) => Leave(w, k, Broken)
      case SeesCancel(k) => Leave(w, k, Cancelled)
      case Links(k, works) =>
        // A hard link never replaces what is there.
        var place, bytes := At(w.tasks[k].target), w.tasks[k].phase.bytes;
        if works && place !in w.files then Enter(w, k, Linked(bytes)).(files := w.files[place := bytes])
        else Enter(w, k, NotLinked)
      case Reports(k, removed) =>
        var done := if w.tasks[k].phase.Linked? then Some(w.tasks[k].phase.bytes) else None;
        Noting(Enter(w, k, Reported).(files := if removed then w.files - {Staging(k)} else w.files),
               Terminal(k, w.tasks[k].id, done))
      case Unregisters(k) => Enter(w, k, Ended).(running := Dropped(w.running, w.tasks[k].id, k))
      case OthersWrite(name, content) =>
        w.(files := match content case Some(bytes) => w.files[At(name) := bytes] case None => w.files - {At(name)})
  }

  function Launched(files: map<Path, seq<byte>>): World {
    World([], map[], DOWNLOAD_PERMITS, files, [])
  }

  function Run(files: map<Path, seq<byte>>, events: seq<Event>): World {
    if events == [] then Launched(files) else Step(Run(files, events[..|events| - 1]), events[|events| - 1])
  }

  // ------------------------------------------------------------------
  // Two downloads at most
  // ------------------------------------------------------------------

  function DownloadCount(tasks: seq<Task>): nat {
    if tasks == [] then 0
    else DownloadCount(tasks[..|tasks| - 1]) + if tasks[|tasks| - 1].phase.Downloading? then 1 else 0
  }

  lemma {:induction false} CountAfterUpdate(tasks: seq<Task>, k: nat, t: Task)
    requires k < |tasks|
    ensures DownloadCount(tasks[k := t]) + (if tasks[k].phase.Downloading? then 1 else 0)
         == DownloadCount(tasks) + if t.phase.Downloading? then 1 else 0
  {
    var n := |tasks| - 1;
    if k < n {
      CountAfterUpdate(tasks[..n], k, t);
      assert tasks[k := t][..n] == tasks[..n][k := t];
    } else {
      assert tasks[k := t][..n] == tasks[..n];
    }
  }

  predicate PermitsKept(w: World) {
    w.permits + DownloadCount(w.tasks) == DOWNLOAD_PERMITS
  }

  lemma StepKeepsPermits(w: World, e: Event)
    requires PermitsKept(w)
    ensures PermitsKept(Step(w, e))
  {
    if Enabled(w, e) {
      match e
      case Accepts(id, target) =>
        if id !in w.running {
          var t := Task(id, target, false, Waiting);
          assert (w.tasks + [t])[..|w.tasks|] == w.tasks;
        }
      case Cancels(id) =>
        if id in w.running && w.running[id] < |w.tasks| {
          CountAfterUpdate(w.tasks, w.running[id], w.tasks[w.running[id]].(notified := true));
        }
      case OthersWrite(_, _) =>
      case Receives(_, _) =>
      case _ => CountAfterUpdate(w.tasks, e.task, Step(w, e).tasks[e.task]);
    }
  }

  /** In every run at most two downloads are under way, and no permit is ever lost or invented. */
  lemma {:induction false} AtMostTwoDownloads(files: map<Path, seq<byte>>, events: seq<Event>)
    ensures PermitsKept(Run(files, events))
    ensures DownloadCount(Run(files, events).tasks) <= 2
  {
    if events != [] {
      AtMostTwoDownloads(files, events[..|events| - 1]);
      StepKeepsPermits(Run(files, events[..|events| - 1]), events[|events| - 1]);
    }
  }

  // ------------------------------------------------------------------
  // One terminal event for each accepted fetch
  // ------------------------------------------------------------------

  /** The task an id is open for, after a log: accepted, and no terminal event yet. */
  function OpenFor(log: seq<Entry>, id: FetchId): Option<nat> {
    if log == [] then None
    else
      var e := log[|log| - 1];
      if e.id != id || e.Progress? then OpenFor(log[..|log| - 1], id)
      else if e.Accepted? then Some(e.task)
      else None
  }

  /**
   * Read for any one id, the log is: accepted, some progress, one terminal event, accepted again, and so on,
   * all from one task until that task's terminal event.
   */
  predicate Alternates(log: seq<Entry>) {
    log == [] ||
    var (before, e) := (log[..|log| - 1], log[|log| - 1]);
    && Alternates(before)
    && (if e.Accepted? then OpenFor(before, e.id).None? else OpenFor(before, e.id) == Some(e.task))
  }

  function TerminalCount(log: seq<Entry>, k: nat): nat {
    if log == [] then 0
    else TerminalCount(log[..|log| - 1], k) + if log[|log| - 1].Terminal? && log[|log| - 1].task == k then 1 else 0
  }

  predicate Settled(t: Task) {
    t.phase.Reported? || t.phase.Ended?
  }

  /** A running id is registered to its task, until that task has ended. */
  ghost predicate RegistryExact(w: World) {
    && (forall id | id in w.running :: w.running[id] < |w.tasks| && w.tasks[w.running[id]].id == id)
    && (forall k | 0 <= k < |w.tasks| ::
          !w.tasks[k].phase.Ended? <==> w.tasks[k].id in w.running && w.running[w.tasks[k].id] == k)
  }

  /** The task an id is registered to and that has not reported. */
  function Unreported(w: World, id: FetchId): Option<nat> {
    if id in w.running && w.running[id] < |w.tasks| && !Settled(w.tasks[w.running[id]]) then Some(w.running[id])
    else None
  }

  ghost predicate LogExact(w: World) {
    && Alternates(w.log)
    && (forall id :: OpenFor(w.log, id) == Unreported(w, id))
    && (forall k: nat :: TerminalCount(w.log, k) == if k < |w.tasks| && Settled(w.tasks[k]) then 1 else 0)
  }

  ghost predicate Inv(w: World) {
    RegistryExact(w) && LogExact(w)
  }

  /** A step that changes no id, settles no task and registers nothing. */
  ghost predicate SameStanding(w: World, w': World) {
    && w'.running == w.running && |w'.tasks| == |w.tasks|
    && forall k | 0 <= k < |w.tasks| ::
         && w'.tasks[k].id == w.tasks[k].id
         && w'.tasks[k].phase.Ended? == w.tasks[k].phase.Ended?
         && Settled(w'.tasks[k]) == Settled(w.tasks[k])
  }

  lemma SameStandingKeeps(w: World, w': World)
    requires Inv(w) && SameStanding(w, w') && w'.log == w.log
    ensures Inv(w')
  {
    hide Alternates, OpenFor, TerminalCount;
    forall id
      ensures Unreported(w', id) == Unreported(w, id)
    {
    }
  }

  lemma LogSnoc(log: seq<Entry>, e: Entry)
    ensures forall id :: OpenFor(log + [e], id)
              == if e.id != id || e.Progress? then OpenFor(log, id) else if e.Accepted? then Some(e.task) else None
    ensures forall k :: TerminalCount(log + [e], k)
              == TerminalCount(log, k) + if e.Terminal? && e.task == k then 1 else 0
    ensures Alternates(log + [e])
       <==> Alternates(log) && if e.Accepted? then OpenFor(log, e.id).None? else OpenFor(log, e.id) == Some(e.task)
  {
    assert (log + [e])[..|log|] == log;
  }

  /** The registry and the tasks after an accepted fetch. */
  ghost predicate AcceptedAs(w: World, t: Task, w': World) {
    t.id !in w.running && t.phase.Waiting? && w'.tasks == w.tasks + [t] && w'.running == w.running[t.id := |w.tasks|]
  }

  lemma AcceptRegisters(w: World, t: Task, w': World)
    requires RegistryExact(w) && AcceptedAs(w, t, w')
    ensures RegistryExact(w')
  {
    assert w'.tasks[|w.tasks|] == t;
    forall k | 0 <= k < |w.tasks|
      ensures w'.tasks[k] == w.tasks[k] && (w.tasks[k].id == t.id ==> w.tasks[k].phase.Ended?)
    {
    }
    hide Settled, Unreported;
  }

  lemma AcceptOpens(w: World, t: Task, w': World)
    requires RegistryExact(w) && AcceptedAs(w, t, w')
    ensures Unreported(w, t.id).None? && Unreported(w', t.id) == Some(|w.tasks|)
    ensures forall id | id != t.id :: Unreported(w', id) == Unreported(w, id)
    ensures forall k: nat | k < |w'.tasks| && Settled(w'.tasks[k]) :: k < |w.tasks| && w'.tasks[k] == w.tasks[k]
    ensures forall k: nat | k < |w.tasks| :: w'.tasks[k] == w.tasks[k]
  {
    assert w'.tasks[|w.tasks|] == t;
  }

  lemma AcceptKeeps(w: World, id: FetchId, target: Name)
    requires Inv(w)
    ensures Inv(Step(w, Accepts(id, target)))
  {
    if id !in w.running {
      LogSnoc(w.log, Accepted(|w.tasks|, id));
      hide Alternates, OpenFor, TerminalCount;
      var w' := Step(w, Accepts(id, target));
      var t := Task(id, target, false, Waiting);
      assert w' == World(w.tasks + [t], w.running[id := |w.tasks|], w.permits, w.files,
                         w.log + [Accepted(|w.tasks|, id)]);
      hide Step;
      AcceptRegisters(w, t, w');
      AcceptOpens(w, t, w');
    }
  }

  lemma ProgressKeeps(w: World, k: nat, data: seq<byte>)
    requires Inv(w) && Enabled(w, Receives(k, data))
    ensures Inv(Step(w, Receives(k, data)))
  {
    LogSnoc(w.log, Progress(k, w.tasks[k].id));
    hide Alternates, OpenFor, TerminalCount;
    var w' := Step(w, Receives(k, data));
    assert Unreported(w, w.tasks[k].id) == Some(k);
    forall id
      ensures Unreported(w', id) == Unreported(w, id)
    {
    }
  }

  lemma ReportStep(w: World, k: nat, removed: bool) returns (entry: Entry)
    requires Enabled(w, Reports(k, removed))
    ensures var w' := Step(w, Reports(k, removed));
            && w'.tasks == w.tasks[k := w.tasks[k].(phase := Reported)] && w'.running == w.running
            && w'.log == w.log + [entry] && entry.Terminal? && entry.task == k && entry.id == w.tasks[k].id
  {
    entry := Terminal(k, w.tasks[k].id, if w.tasks[k].phase.Linked? then Some(w.tasks[k].phase.bytes) else None);
  }

  lemma ReportKeeps(w: World, k: nat, removed: bool)
    requires Inv(w) && Enabled(w, Reports(k, removed))
    ensures Inv(Step(w, Reports(k, removed)))
  {
    var w' := Step(w, Reports(k, removed));
    var entry := ReportStep(w, k, removed);
    LogSnoc(w.log, entry);
    hide Alternates, OpenFor, TerminalCount, Step;
    assert Unreported(w, w.tasks[k].id) == Some(k);
    forall id
      ensures OpenFor(w'.log, id) == Unreported(w', id)
    {
      if id != w.tasks[k].id {
        assert Unreported(w', id) == Unreported(w, id);
      }
    }
  }

  lemma UnregisterKeeps(w: World, k: nat)
    requires Inv(w) && Enabled(w, Unregisters(k))
    ensures Inv(Step(w, Unregisters(k)))
  {
    hide Alternates, OpenFor, TerminalCount;
    var w' := Step(w, Unregisters(k));
    assert w.tasks[k].id in w.running && w.running[w.tasks[k].id] == k;
    forall id
      ensures Unreported(w', id) == Unreported(w, id)
    {
      if id in w.running && id != w.tasks[k].id {
        assert w.running[id] != k;
      }
    }
  }

  lemma StepKeeps(w: World, e: Event)
    requires Inv(w)
    ensures Inv(Step(w, e))
  {
    hide Step, Inv, SameStanding;
    if Enabled(w, e) {
      match e
      case Accepts(id, target) => AcceptKeeps(w, id, target);
      case Receives(k, data) => ProgressKeeps(w, k, data);
      case Reports(k, removed) => ReportKeeps(w, k, removed);
      case Unregisters(k) => UnregisterKeeps(w, k);
      case _ =>
        OthersStand(w, e);
        SameStandingKeeps(w, Step(w, e));
    } else {
      NotTaken(w, e);
    }
  }

  lemma OthersStand(w: World, e: Event)
    requires Enabled(w, e) && !e.Accepts? && !e.Receives? && !e.Reports? && !e.Unregisters?
    ensures SameStanding(w, Step(w, e)) && Step(w, e).log == w.log
  {
  }

  lemma NotTaken(w: World, e: Event)
    requires !Enabled(w, e)
    ensures Step(w, e) == w
  {
  }

  lemma {:induction false} RunsKeep(files: map<Path, seq<byte>>, events: seq<Event>)
    ensures Inv(Run(files, events))
  {
    if events != [] {
      RunsKeep(files, events[..|events| - 1]);
      StepKeeps(Run(files, events[..|events| - 1]), events[|events| - 1]);
    }
  }

  /**
   * In every run each accepted fetch has exactly one terminal event once it is over and none before, and an
   * id is not accepted again until the fetch it was accepted for has had its own.
   */
  lemma OneTerminalEach(files: map<Path, seq<byte>>, events: seq<Event>)
    ensures var w := Run(files, events);
            && Alternates(w.log)
            && (forall k: nat | k < |w.tasks| :: TerminalCount(w.log, k) == if Settled(w.tasks[k]) then 1 else 0)
            && (forall id, target :: Step(w, Accepts(id, target)) != w ==> OpenFor(w.log, id).None?)
  {
    RunsKeep(files, events);
    hide Alternates, OpenFor, TerminalCount, Run;
  }

  // ------------------------------------------------------------------
  // Cancelling
  // ------------------------------------------------------------------

  /**
   * A cancel of a running id reaches its task whatever that task is doing, and stays until the task sees it:
   * from then on the task is under way only with the signal raised, unless the download is already over.
   */
  lemma CancelIsNotLost(files: map<Path, seq<byte>>, events: seq<Event>, e: Event, k: nat)
    ensures var w := Run(files, events);
            k < |w.tasks| && !w.tasks[k].phase.Ended? ==>
              && k < |Step(w, Cancels(w.tasks[k].id)).tasks|
              && Step(w, Cancels(w.tasks[k].id)).tasks[k].notified
              && (w.tasks[k].notified && Racing(w.tasks[k]) ==>
                    && Enabled(w, SeesCancel(k))
                    && Step(w, SeesCancel(k)).tasks[k].phase == Cancelled
                    && k < |Step(w, e).tasks|
                    && var t := Step(w, e).tasks[k];
                       (t.notified && Racing(t)) || t.phase.Cancelled?
                       || ((e == Completes(k) || e == Breaks(k)) && (t.phase.Fetched? || t.phase.Broken?)))
  {
    RunsKeep(files, events);
    var w := Run(files, events);
    hide LogExact, Run;
    if k < |w.tasks| && !w.tasks[k].phase.Ended? {
      assert w.running[w.tasks[k].id] == k;
    }
  }

  // ------------------------------------------------------------------
  // What lands at the target
  // ------------------------------------------------------------------

  /** No step of a fetch touches a file of the tree, but one that links at a target where there is nothing. */
  lemma OnlyLinksTouchTheTree(w: World, e: Event, name: Name)
    requires !e.OthersWrite?
    ensures var (before, after) := (w.files, Step(w, e).files);
            && (At(name) in before ==> At(name) in after && after[At(name)] == before[At(name)])
            && (At(name) in after && At(name) !in before ==>
                  && e.Links? && e.task < |w.tasks| && w.tasks[e.task].target == name
                  && w.tasks[e.task].phase == Fetched(after[At(name)])
                  && Step(w, e).tasks[e.task].phase == Linked(after[At(name)]))
  {
  }

  /** What a task has received since it started its download, after one more step. */
  function ReceivedNext(w: World, e: Event, k: nat, got: seq<byte>): seq<byte> {
    if !Enabled(w, e) then got
    else if e.Starts? && e.task == k then []
    else if e.Receives? && e.task == k then got + e.data
    else got
  }

  function Received(files: map<Path, seq<byte>>, events: seq<Event>, k: nat): seq<byte> {
    if events == [] then []
    else
      var before := events[..|events| - 1];
      ReceivedNext(Run(files, before), events[|before|], k, Received(files, before, k))
  }

  /** The staging file of a download, and then what was read from it, are what the task received. */
  predicate HasReceived(w: World, k: nat, got: seq<byte>)
    requires k < |w.tasks|
  {
    match w.tasks[k].phase
    case Downloading => Staging(k) in w.files && w.files[Staging(k)] == got
    case Fetched(bytes) => bytes == got
    case Linked(bytes) => bytes == got
    case _ => true
  }

  /** A task's own report ends it, and a success among them carries what the task received. */
  predicate ReportedAs(w: World, entry: Entry, got: seq<byte>) {
    entry.Terminal? ==>
      && entry.task < |w.tasks| && Settled(w.tasks[entry.task])
      && (entry.done.Some? ==> entry.done.value == got)
  }

  lemma ReceivedStep(w: World, e: Event, k: nat, got: seq<byte>)
    requires k < |w.tasks| && HasReceived(w, k, got)
    ensures k < |Step(w, e).tasks| && HasReceived(Step(w, e), k, ReceivedNext(w, e, k, got))
  {
  }

  lemma SettledStays(w: World, e: Event, entry: Entry, got: seq<byte>)
    requires entry.Terminal? && ReportedAs(w, entry, got)
    ensures ReportedAs(Step(w, e), entry, ReceivedNext(w, e, entry.task, got))
  {
  }

  lemma NewEntry(w: World, e: Event, entry: Entry, got: seq<byte>)
    requires entry in Step(w, e).log && entry !in w.log && entry.Terminal?
    requires entry.task < |w.tasks| ==> HasReceived(w, entry.task, got)
    ensures ReportedAs(Step(w, e), entry, ReceivedNext(w, e, entry.task, got))
  {
  }

  lemma NewTaskWaits(w: World, e: Event, k: nat, got: seq<byte>)
    requires |w.tasks| <= k < |Step(w, e).tasks|
    ensures HasReceived(Step(w, e), k, got)
  {
  }

  /** In every run: only its own download writes a task's staging file, so nothing else reaches its report. */
  lemma {:induction false} ReportsWhatItReceived(files: map<Path, seq<byte>>, events: seq<Event>)
    ensures var w := Run(files, events);
            && (forall k | 0 <= k < |w.tasks| :: HasReceived(w, k, Received(files, events, k)))
            && (forall e | e in w.log && e.Terminal? :: ReportedAs(w, e, Received(files, events, e.task)))
  {
    if events != [] {
      var before, e := events[..|events| - 1], events[|events| - 1];
      ReportsWhatItReceived(files, before);
      var w, w' := Run(files, before), Run(files, events);
      assert w' == Step(w, e);
      hide Step, Run, HasReceived, ReportedAs;
      forall k | 0 <= k < |w'.tasks|
        ensures HasReceived(w', k, Received(files, events, k))
      {
        if k < |w.tasks| {
          ReceivedStep(w, e, k, Received(files, before, k));
        } else {
          NewTaskWaits(w, e, k, Received(files, events, k));
        }
      }
      forall entry | entry in w'.log && entry.Terminal?
        ensures ReportedAs(w', entry, Received(files, events, entry.task))
      {
        if entry in w.log {
          SettledStays(w, e, entry, Received(files, before, entry.task));
        } else {
          NewEntry(w, e, entry, Received(files, before, entry.task));
        }
      }
    }
  }

  /** Some step of the run was this task's link: nothing was at the target before it, and these bytes after. */
  ghost predicate LinkedIn(files: map<Path, seq<byte>>, events: seq<Event>, k: nat, bytes: seq<byte>) {
    exists i | 0 <= i < |events| :: LinkedAt(files, events, i, k, bytes)
  }

  ghost predicate LinkedAt(files: map<Path, seq<byte>>, events: seq<Event>, i: nat, k: nat, bytes: seq<byte>)
    requires i < |events|
  {
    var (w, w') := (Run(files, events[..i]), Run(files, events[..i + 1]));
    && events[i].Links? && events[i].task == k < |w.tasks|
    && At(w.tasks[k].target) !in w.files
    && At(w.tasks[k].target) in w'.files && w'.files[At(w.tasks[k].target)] == bytes
  }

  ghost predicate DoneWasLinked(files: map<Path, seq<byte>>, events: seq<Event>) {
    var w := Run(files, events);
    && (forall k | 0 <= k < |w.tasks| && w.tasks[k].phase.Linked? :: LinkedIn(files, events, k, w.tasks[k].phase.bytes))
    && (forall e | e in w.log && e.Terminal? && e.done.Some? :: LinkedIn(files, events, e.task, e.done.value))
  }

  lemma LinkedStays(files: map<Path, seq<byte>>, events: seq<Event>, k: nat, bytes: seq<byte>)
    requires events != [] && LinkedIn(files, events[..|events| - 1], k, bytes)
    ensures LinkedIn(files, events, k, bytes)
  {
    var before := events[..|events| - 1];
    var i :| 0 <= i < |before| && LinkedAt(files, before, i, k, bytes);
    assert before[..i] == events[..i] && before[..i + 1] == events[..i + 1];
    assert LinkedAt(files, events, i, k, bytes);
  }

  lemma LinkStep(w: World, e: Event, k: nat, bytes: seq<byte>)
    requires var w' := Step(w, e);
             k < |w'.tasks| && w'.tasks[k].phase == Linked(bytes) && (k < |w.tasks| ==> !w.tasks[k].phase.Linked?)
    ensures e.Links? && e.task == k < |w.tasks| && At(w.tasks[k].target) !in w.files
    ensures var files := Step(w, e).files;
            At(w.tasks[k].target) in files && files[At(w.tasks[k].target)] == bytes
  {
  }

  lemma LinkIsLast(files: map<Path, seq<byte>>, events: seq<Event>, k: nat, bytes: seq<byte>)
    requires events != [] && k < |Run(files, events).tasks| && Run(files, events).tasks[k].phase == Linked(bytes)
    requires var before := Run(files, events[..|events| - 1]);
             k < |before.tasks| ==> !before.tasks[k].phase.Linked?
    ensures LinkedIn(files, events, k, bytes)
  {
    var n := |events| - 1;
    assert events[..n + 1] == events;
    var w := Run(files, events[..n]);
    assert Run(files, events) == Step(w, events[n]);
    hide Run;
    LinkStep(w, events[n], k, bytes);
    assert LinkedAt(files, events, n, k, bytes);
  }

  lemma {:induction false} DoneIsLinked(files: map<Path, seq<byte>>, events: seq<Event>)
    ensures DoneWasLinked(files, events)
  {
    if events != [] {
      var before := events[..|events| - 1];
      DoneIsLinked(files, before);
      var w, w' := Run(files, before), Run(files, events);
      assert w' == Step(w, events[|before|]);
      hide Step, Run;
      forall k | 0 <= k < |w'.tasks| && w'.tasks[k].phase.Linked?
        ensures LinkedIn(files, events, k, w'.tasks[k].phase.bytes)
      {
        if k < |w.tasks| && w.tasks[k].phase.Linked? {
          LinkedPhaseStays(w, events[|before|], k);
          LinkedStays(files, events, k, w.tasks[k].phase.bytes);
        } else {
          LinkIsLast(files, events, k, w'.tasks[k].phase.bytes);
        }
      }
      forall e | e in w'.log && e.Terminal? && e.done.Some?
        ensures LinkedIn(files, events, e.task, e.done.value)
      {
        DoneFromLinked(w, events[|before|], e);
        LinkedStays(files, events, e.task, e.done.value);
      }
    }
  }

  /**
   * A success is reported only for a file this very fetch put at a target where nothing was, and its bytes are
   * those this fetch received, one after the other; every other outcome is a failure report.
   */
  lemma DoneMeansLinked(files: map<Path, seq<byte>>, events: seq<Event>, e: Entry)
    requires e in Run(files, events).log && e.Terminal? && e.done.Some?
    ensures LinkedIn(files, events, e.task, e.done.value) && e.done.value == Received(files, events, e.task)
  {
    hide Run, LinkedIn, Received;
    DoneIsLinked(files, events);
    ReportsWhatItReceived(files, events);
  }

  lemma LinkedPhaseStays(w: World, e: Event, k: nat)
    requires k < |w.tasks| && w.tasks[k].phase.Linked?
    ensures k < |Step(w, e).tasks|
    ensures Step(w, e).tasks[k].phase.Linked? ==> Step(w, e).tasks[k].phase == w.tasks[k].phase
  {
  }

  lemma DoneFromLinked(w: World, e: Event, entry: Entry)
    requires entry in Step(w, e).log && entry.Terminal? && entry.done.Some?
    ensures entry in w.log
            || (entry.task < |w.tasks| && w.tasks[entry.task].phase == Linked(entry.done.value))
  {
  }

  // ------------------------------------------------------------------
  // Success and failure are told apart exactly
  // ------------------------------------------------------------------

  /** The link of this task is tried, works, and nothing is at its target. */
  predicate LinksNow(w: World, e: Event, k: nat) {
    e.Links? && e.task == k && Enabled(w, e) && e.works && At(w.tasks[k].target) !in w.files
  }

  /** The download breaks, a cancel is seen, or the link is tried and does not happen. */
  predicate FailsNow(w: World, e: Event, k: nat) {
    && Enabled(w, e) && (e.Breaks? || e.SeesCancel? || e.Links?) && e.task == k
    && !LinksNow(w, e, k)
  }

  function HasLinked(files: map<Path, seq<byte>>, events: seq<Event>, k: nat): bool {
    events != []
    && var before := events[..|events| - 1];
       HasLinked(files, before, k) || LinksNow(Run(files, before), events[|before|], k)
  }

  function HasFailed(files: map<Path, seq<byte>>, events: seq<Event>, k: nat): bool {
    events != []
    && var before := events[..|events| - 1];
       HasFailed(files, before, k) || FailsNow(Run(files, before), events[|before|], k)
  }

  /** What has become of a task, by its phase. */
  predicate CameTo(w: World, k: nat, linked: bool, failed: bool) {
    if k >= |w.tasks| then !linked && !failed
    else
      match w.tasks[k].phase
      case Waiting => !linked && !failed
      case Downloading => !linked && !failed
      case Fetched(_) => !linked && !failed
      case Linked(_) => linked && !failed
      case Broken => failed && !linked
      case Cancelled => failed && !linked
      case NotLinked => failed && !linked
      case Reported => linked != failed
      case Ended => linked != failed
  }

  /** A report says which of the two it was. */
  predicate ReportsOutcome(w: World, entry: Entry, linked: bool, failed: bool) {
    entry.Terminal? ==>
      && entry.task < |w.tasks| && Settled(w.tasks[entry.task])
      && (entry.done.Some? <==> linked) && (entry.done.None? <==> failed)
  }

  lemma ComesTo(w: World, e: Event, k: nat, linked: bool, failed: bool)
    requires CameTo(w, k, linked, failed)
    ensures CameTo(Step(w, e), k, linked || LinksNow(w, e, k), failed || FailsNow(w, e, k))
  {
  }

  lemma ReportStands(w: World, e: Event, entry: Entry, linked: bool, failed: bool)
    requires entry.Terminal? && ReportsOutcome(w, entry, linked, failed)
    ensures var k := entry.task;
            ReportsOutcome(Step(w, e), entry, linked || LinksNow(w, e, k), failed || FailsNow(w, e, k))
  {
  }

  lemma NewReport(w: World, e: Event, entry: Entry, linked: bool, failed: bool)
    requires entry in Step(w, e).log && entry !in w.log && entry.Terminal? && CameTo(w, entry.task, linked, failed)
    ensures var k := entry.task;
            ReportsOutcome(Step(w, e), entry, linked || LinksNow(w, e, k), failed || FailsNow(w, e, k))
  {
  }

  lemma {:induction false} OutcomesAreReported(files: map<Path, seq<byte>>, events: seq<Event>)
    ensures var w := Run(files, events);
            && (forall k: nat :: CameTo(w, k, HasLinked(files, events, k), HasFailed(files, events, k)))
            && (forall e | e in w.log && e.Terminal? ::
                  ReportsOutcome(w, e, HasLinked(files, events, e.task), HasFailed(files, events, e.task)))
  {
    if events != [] {
      var before, e := events[..|events| - 1], events[|events| - 1];
      OutcomesAreReported(files, before);
      var w, w' := Run(files, before), Run(files, events);
      assert w' == Step(w, e);
      hide Step, Run, CameTo, ReportsOutcome, LinksNow, FailsNow;
      forall k: nat
        ensures CameTo(w', k, HasLinked(files, events, k), HasFailed(files, events, k))
      {
        ComesTo(w, e, k, HasLinked(files, before, k), HasFailed(files, before, k));
      }
      forall entry | entry in w'.log && entry.Terminal?
        ensures ReportsOutcome(w', entry, HasLinked(files, events, entry.task), HasFailed(files, events, entry.task))
      {
        var linked, failed := HasLinked(files, before, entry.task), HasFailed(files, before, entry.task);
        if entry in w.log {
          ReportStands(w, e, entry, linked, failed);
        } else {
          NewReport(w, e, entry, linked, failed);
        }
      }
    }
  }

  /**
   * In every run a finished fetch is reported done exactly when its link worked at a free target, and failed exactly
   * when its download broke, its cancel was seen, or its link was tried and did not happen.
   */
  lemma DoneExactlyWhenLinked(files: map<Path, seq<byte>>, events: seq<Event>, entry: Entry)
    requires entry in Run(files, events).log && entry.Terminal?
    ensures entry.done.Some? <==> HasLinked(files, events, entry.task)
    ensures entry.done.None? <==> HasFailed(files, events, entry.task)
  {
    hide Run, HasLinked, HasFailed;
    OutcomesAreReported(files, events);
  }

  /** And a link puts the fetched bytes at the target exactly when the call works and nothing is there. */
  lemma LinkIsExact(w: World, k: nat, works: bool)
    requires Enabled(w, Links(k, works))
    ensures var (place, bytes, w') := (At(w.tasks[k].target), w.tasks[k].phase.bytes, Step(w, Links(k, works)));
            && (LinksNow(w, Links(k, works), k) <==> works && place !in w.files)
            && w'.tasks[k].phase == (if works && place !in w.files then Linked(bytes) else NotLinked)
            && w'.files == (if works && place !in w.files then w.files[place := bytes] else w.files)
  {
  }
}
