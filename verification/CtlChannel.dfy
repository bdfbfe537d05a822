/**
 * The control channel. Its frames carry no request ids: the client keeps the requests that await a response
 * in a queue, and takes a frame of the kind its head expects, or an error, as that one's answer. Agent and
 * client agree on which requests await anything, and nothing else may look like an answer.
 */
module CtlChannel {
  import Seqs
  import opened Wrappers
  import opened Bytes

  /** The bytes of a string. */
  type Text = seq<byte>

  // ------------------------------------------------------------------
  // Requests and responses
  // ------------------------------------------------------------------

  datatype Request =
    | PtySpawn(ptyId: Text, cwd: Option<Text>, command: Option<Text>, cols: nat, rows: nat,
               env: Option<map<Text, Text>>)
    | PtyResize(ptyId: Text, cols: nat, rows: nat)
    | PtyKill(ptyId: Text)
    | PtyAttach(ptyId: Text, sinceByte: Option<nat>, gridCols: Option<nat>, gridRows: Option<nat>)
    | JobSet(ptyId: Text, enabled: bool, jobLabel: Option<Text>)
    | PtyList
    | PortsList
    | FetchPublic(fetchId: Text, url: Text, destPath: Text)
    | FetchCancel(fetchId: Text)

  datatype Kind =
    | SpawnedKind | AttachedKind | ExitedKind | ListingKind | JobAckKind | PortsKind
    | StartedKind | ProgressKind | DoneKind | FailedKind | ChangedKind | ErrorKind

  /** `ErrorFrame` carries the refusal's code; what the other frames carry plays no part in matching. */
  datatype Response = Frame(kind: Kind, about: Text) | ErrorFrame(code: Code)

  datatype Code =
    | CapabilityDenied | InvalidRequest | SpawnFailed | ResizeFailed | KillFailed | AttachFailed
    | PortsListFailed | PathRefused | FetchExists

  function KindOf(r: Response): Kind {
    if r.ErrorFrame? then ErrorKind else r.kind
  }

  /** The agent's half of the contract: `awaits_response`. */
  predicate AwaitsResponse(r: Request) {
    !(r.PtyResize? || r.PtyKill? || r.FetchCancel?)
  }

  /** The client's half: `CTL_RESPONSE_TYPE`. No entry means fire and forget. */
  function Expected(r: Request): Option<Kind> {
    match r
    case PtySpawn(_, _, _, _, _, _) => Some(SpawnedKind)
    case PtyAttach(_, _, _, _) => Some(AttachedKind)
    case PtyList => Some(ListingKind)
    case JobSet(_, _, _) => Some(JobAckKind)
    case PortsList => Some(PortsKind)
    case FetchPublic(_, _, _) => Some(StartedKind)
    case _ => None
  }

  // ------------------------------------------------------------------
  // Bounds checks
  // ------------------------------------------------------------------

  predicate PtyIdOk(id: Text) {
    1 <= |id| <= 128
  }

  predicate DimsOk(cols: nat, rows: nat) {
    1 <= cols <= 1000 && 1 <= rows <= 1000
  }

  predicate IsControl(b: byte) {
    b < 32 || b == 127
  }

  predicate FetchIdOk(id: Text) {
    && 1 <= |id| <= 128
    && forall b | b in id :: 48 <= b <= 57 || 65 <= b <= 90 || 97 <= b <= 122 || b == 45 || b == 95
  }

  predicate HasScheme(url: Text) {
    exists i | 0 <= i < |url| - 2 :: url[i] == 58 && url[i + 1] == 47 && url[i + 2] == 47
  }

  /** `validate`. */
  predicate Valid(r: Request) {
    match r
    case PtySpawn(ptyId, cwd, command, cols, rows, env) =>
      && PtyIdOk(ptyId) && DimsOk(cols, rows)
      && (cwd.Some? ==> |cwd.value| <= 4096) && (command.Some? ==> |command.value| <= 4096)
      && (env.Some? ==> forall k | k in env.value :: |env.value[k]| <= 4096)
    case PtyResize(ptyId, cols, rows) => PtyIdOk(ptyId) && DimsOk(cols, rows)
    case PtyKill(ptyId) => PtyIdOk(ptyId)
    case PtyAttach(ptyId, _, cols, rows) =>
      && PtyIdOk(ptyId)
      && (if cols.Some? && rows.Some? then DimsOk(cols.value, rows.value) else cols.None? && rows.None?)
    case JobSet(ptyId, _, jobLabel) => PtyIdOk(ptyId) && (jobLabel.Some? ==> |jobLabel.value| <= 200)
    case PtyList => true
    case PortsList => true
    case FetchPublic(fetchId, url, destPath) =>
      && FetchIdOk(fetchId)
      && |url| <= 8192 && HasScheme(url)
      && (forall b | b in url :: !IsControl(b) && b != 32)
      && 1 <= |destPath| <= 4096
      && (forall b | b in destPath :: !IsControl(b))
    case FetchCancel(fetchId) => FetchIdOk(fetchId)
  }

  // ------------------------------------------------------------------
  // Dispatch
  // ------------------------------------------------------------------

  /** What the handler behind a request reports. */
  datatype Handled = Done(about: Text) | PathBad | AlreadyActive | Broken

  /** The inner dispatch: an answer, or nothing, with no regard to who is waiting. */
  function DispatchAwaited(denied: bool, r: Request, handled: Handled): Option<Response> {
    if denied then Some(ErrorFrame(CapabilityDenied))
    else if !Valid(r) then Some(ErrorFrame(InvalidRequest))
    else
      match r
      case PtySpawn(ptyId, _, _, _, _, _) =>
        Some(if handled.Done? then Frame(SpawnedKind, ptyId) else ErrorFrame(SpawnFailed))
      case PtyResize(_, _, _) => if handled.Done? then None else Some(ErrorFrame(ResizeFailed))
      case PtyKill(_) => if handled.Done? then None else Some(ErrorFrame(KillFailed))
      case PtyAttach(ptyId, _, _, _) =>
        Some(if handled.Done? then Frame(AttachedKind, ptyId) else ErrorFrame(AttachFailed))
      case JobSet(ptyId, _, _) => Some(Frame(JobAckKind, ptyId))
      case PtyList => Some(Frame(ListingKind, if handled.Done? then handled.about else []))
      case PortsList => Some(if handled.Done? then Frame(PortsKind, handled.about) else ErrorFrame(PortsListFailed))
      case FetchPublic(fetchId, _, _) =>
        Some(if handled.PathBad? then ErrorFrame(PathRefused)
             else if handled.AlreadyActive? then ErrorFrame(FetchExists)
             else Frame(StartedKind, fetchId))
      case FetchCancel(_) => None
  }

  /** The outer dispatch drops the errors of requests nobody waits on. */
  function Dispatch(denied: bool, r: Request, handled: Handled): Option<Response> {
    var response := DispatchAwaited(denied, r, handled);
    if response.Some? && response.value.ErrorFrame? && !AwaitsResponse(r) then None else response
  }

  /**
   * Exactly the requests the client waits on are answered, with the kind it expects or an error; the others
   * put nothing on the wire, refused or not.
   */
  lemma AnswersExactlyTheAwaited(denied: bool, r: Request, handled: Handled)
    ensures Dispatch(denied, r, handled).Some? <==> AwaitsResponse(r)
    ensures AwaitsResponse(r) <==> Expected(r).Some?
    ensures AwaitsResponse(r) ==>
              KindOf(Dispatch(denied, r, handled).value) == Expected(r).value
              || KindOf(Dispatch(denied, r, handled).value) == ErrorKind
  {
    hide Valid;
  }

  /** What the handler reports is a failure of this request: listings and job marks have none. */
  predicate Fails(r: Request, handled: Handled) {
    match r
    case PtyList => false
    case JobSet(_, _, _) => false
    case FetchPublic(_, _, _) => handled.PathBad? || handled.AlreadyActive?
    case _ => !handled.Done?
  }

  /** What the answer to a request is about: the session or the fetch it names. */
  function Named(r: Request): Option<Text> {
    match r
    case PtyList => None
    case PortsList => None
    case FetchPublic(fetchId, _, _) => Some(fetchId)
    case FetchCancel(fetchId) => Some(fetchId)
    case _ => Some(r.ptyId)
  }

  /**
   * And an error exactly when the request was denied, was malformed or failed, denial first and malformed next: a
   * success is answered with its own kind, and about the session or the fetch the request names.
   */
  lemma ErrorsAreRefusals(denied: bool, r: Request, handled: Handled)
    requires AwaitsResponse(r)
    ensures var answer := Dispatch(denied, r, handled).value;
            && (answer.ErrorFrame? <==> denied || !Valid(r) || Fails(r, handled))
            && (answer.Frame? ==> answer.kind == Expected(r).value)
            && (answer.Frame? && Named(r).Some? ==> answer.about == Named(r).value)
            && (answer == ErrorFrame(CapabilityDenied) <==> denied)
            && (answer == ErrorFrame(InvalidRequest) <==> !denied && !Valid(r))
  {
    hide Valid;
  }

  /** What background tasks and the shared bus send: never an error, never a kind anyone waits for. */
  predicate IsEvent(r: Response) {
    r.Frame? && (r.kind == ExitedKind || r.kind == ChangedKind
                 || r.kind == ProgressKind || r.kind == DoneKind || r.kind == FailedKind)
  }

  lemma EventsAnswerNothing(e: Response, r: Request)
    requires IsEvent(e)
    ensures Some(KindOf(e)) != Expected(r) && KindOf(e) != ErrorKind
  {
  }

  /** The agent's ctl queue: responses and events go through it, in send order. */
  class CtlQueue {
    var frames: seq<Response>

    constructor ()
      ensures frames == []
    {
      frames := [];
    }

    /** `handle_ctl`: one frame for a request somebody waits on, and none for any other. */
    method HandleCtl(denied: bool, r: Request, handled: Handled)
      modifies this
      ensures |frames| == |old(frames)| + if AwaitsResponse(r) then 1 else 0
      ensures old(frames) <= frames
      ensures AwaitsResponse(r) ==> Some(frames[|frames| - 1]) == Dispatch(denied, r, handled)
    {
      AnswersExactlyTheAwaited(denied, r, handled);
      hide Dispatch;
      var response := Dispatch(denied, r, handled);
      if response.Some? {
        frames := frames + [response.value];
      }
    }

    /** An event from a background task or the shared bus. */
    method Notify(e: Response)
      requires IsEvent(e)
      modifies this
      ensures frames == old(frames) + [e]
    {
      frames := frames + [e];
    }
  }

  // ------------------------------------------------------------------
  // Both ends of one connection
  // ------------------------------------------------------------------

  /** A request the client waits on: its number among all it sent, and the kind it expects. */
  datatype Awaiting = Awaiting(id: nat, expected: Kind)

  datatype Sent = Sent(id: nat, request: Request)

  /** A frame, and (for the proof alone) what it answers. */
  datatype Queued = Queued(response: Response, answers: Option<Awaiting>)

  datatype World = World(
    sent: seq<Sent>,
    inbound: seq<Sent>,
    outbound: seq<Queued>,
    pending: seq<Awaiting>,
    resolved: seq<(Awaiting, Queued)>,
    heard: seq<Queued>)

  const START := World([], [], [], [], [], [])

  datatype Event =
    | ClientSends(request: Request)
    | AgentHandles(denied: bool, handled: Handled)
    | AgentNotifies(event: Response)
    | ClientHears

  function AwaitingOf(s: Sent): seq<Awaiting> {
    match Expected(s.request)
    case Some(kind) => [Awaiting(s.id, kind)]
    case None => []
  }

  /** The client's `onCtlFrame`: the head takes its kind or an error; listeners get the rest. */
  function Hear(w: World, q: Queued): World {
    if w.pending != [] && (KindOf(q.response) == w.pending[0].expected || KindOf(q.response) == ErrorKind)
    then w.(pending := w.pending[1..], resolved := w.resolved + [(w.pending[0], q)])
    else w.(heard := w.heard + [q])
  }

  predicate Enabled(w: World, e: Event) {
    match e
    case ClientSends(_) => true
    case AgentHandles(_, _) => w.inbound != []
    case AgentNotifies(event) => IsEvent(event)
    case ClientHears => w.outbound != []
  }

  function Step(w: World, e: Event): World {
    if !Enabled(w, e) then w
    else
      match e
      case ClientSends(request) =>
        var s := Sent(|w.sent|, request);
        w.(sent := w.sent + [s], inbound := w.inbound + [s], pending := w.pending + AwaitingOf(s))
      case AgentHandles(denied, handled) =>
        var s := w.inbound[0];
        var response := Dispatch(denied, s.request, handled);
        var rest := w.(inbound := w.inbound[1..]);
        if response.None? then rest
        else
          var answers := if AwaitingOf(s) == [] then None else Some(AwaitingOf(s)[0]);
          rest.(outbound := w.outbound + [Queued(response.value, answers)])
      case AgentNotifies(event) => w.(outbound := w.outbound + [Queued(event, None)])
      case ClientHears => Hear(w.(outbound := w.outbound[1..]), w.outbound[0])
  }

  function Run(events: seq<Event>): World {
    if events == [] then START else Step(Run(events[..|events| - 1]), events[|events| - 1])
  }

  // ------------------------------------------------------------------
  // What every step keeps
  // ------------------------------------------------------------------

  /** The awaited ones among some requests, in order. */
  function AwaitedIn(sent: seq<Sent>): seq<Awaiting> {
    if sent == [] then [] else AwaitingOf(sent[0]) + AwaitedIn(sent[1..])
  }

  /** What the frames on their way answer, in order. */
  function AnsweredBy(queue: seq<Queued>): seq<Awaiting> {
    if queue == [] then []
    else (if queue[0].answers.Some? then [queue[0].answers.value] else []) + AnsweredBy(queue[1..])
  }

  /** A terminal response has the kind expected of it or is an error; any other frame is an event. */
  predicate Proper(q: Queued) {
    match q.answers
    case Some(a) => (KindOf(q.response) == a.expected || KindOf(q.response) == ErrorKind) && !IsEvent(q.response)
    case None => IsEvent(q.response)
  }

  function Takers(resolved: seq<(Awaiting, Queued)>): seq<Awaiting> {
    if resolved == [] then [] else Takers(resolved[..|resolved| - 1]) + [resolved[|resolved| - 1].0]
  }

  /** Whoever is waiting expects a kind some request expects, and so never an event's. */
  predicate Expectable(a: Awaiting) {
    a.expected in {SpawnedKind, AttachedKind, ListingKind, JobAckKind, PortsKind, StartedKind}
  }

  ghost predicate Inv(w: World) {
    && w.pending == AnsweredBy(w.outbound) + AwaitedIn(w.inbound)
    && (forall q | q in w.outbound :: Proper(q))
    && (forall a | a in w.pending :: Expectable(a))
    && Takers(w.resolved) + w.pending == AwaitedIn(w.sent)
    && (forall p | p in w.resolved :: p.1.answers == Some(p.0) && Proper(p.1))
    && (forall q | q in w.heard :: q.answers.None? && IsEvent(q.response))
  }

  lemma {:induction false} AwaitedSnoc(sent: seq<Sent>, s: Sent)
    ensures AwaitedIn(sent + [s]) == AwaitedIn(sent) + AwaitingOf(s)
  {
    hide AwaitingOf;
    if sent == [] {
      assert [] + [s] == [s];
      assert AwaitingOf(s) + [] == AwaitingOf(s);
      assert [] + AwaitingOf(s) == AwaitingOf(s);
    } else {
      AwaitedSnoc(sent[1..], s);
      Seqs.TailOfJoin(sent, [s]);
      Seqs.Regroup(AwaitingOf(sent[0]), AwaitedIn(sent[1..]), AwaitingOf(s));
    }
  }

  lemma {:induction false} AnsweredSnoc(queue: seq<Queued>, q: Queued)
    ensures AnsweredBy(queue + [q]) == AnsweredBy(queue) + if q.answers.Some? then [q.answers.value] else []
  {
    if queue == [] {
      assert [] + [q] == [q];
    } else {
      AnsweredSnoc(queue[1..], q);
      assert (queue + [q])[1..] == queue[1..] + [q];
    }
  }

  lemma AwaitingIsExpectable(s: Sent)
    ensures forall a | a in AwaitingOf(s) :: Expectable(a)
    ensures |AwaitingOf(s)| <= 1 && (AwaitingOf(s) != [] <==> AwaitsResponse(s.request))
  {
  }

  lemma SendKeeps(w: World, request: Request)
    requires Inv(w)
    ensures Inv(Step(w, ClientSends(request)))
  {
    var s := Sent(|w.sent|, request);
    var a := AwaitingOf(s);
    AwaitedSnoc(w.sent, s);
    AwaitedSnoc(w.inbound, s);
    AwaitingIsExpectable(s);
    hide AwaitingOf, Expectable, Proper, IsEvent, AwaitedIn, AnsweredBy, Takers;
    Seqs.Regroup(AnsweredBy(w.outbound), AwaitedIn(w.inbound), a);
    Seqs.Regroup(Takers(w.resolved), w.pending, a);
  }

  lemma AwaitedNext(sent: seq<Sent>)
    requires sent != []
    ensures AwaitedIn(sent) == AwaitingOf(sent[0]) + AwaitedIn(sent[1..])
    ensures AwaitingOf(sent[0]) == [] ==> AwaitedIn(sent) == AwaitedIn(sent[1..])
  {
    hide AwaitingOf;
    assert [] + AwaitedIn(sent[1..]) == AwaitedIn(sent[1..]);
  }

  /** What handling one request puts on the wire. */
  lemma HandleStep(w: World, denied: bool, handled: Handled)
    requires w.inbound != []
    ensures var (s, w') := (w.inbound[0], Step(w, AgentHandles(denied, handled)));
            && w' == w.(inbound := w.inbound[1..], outbound := w'.outbound)
            && (AwaitingOf(s) == [] ==> w'.outbound == w.outbound)
            && (AwaitingOf(s) != [] ==>
                  && AwaitingOf(s) == [AwaitingOf(s)[0]]
                  && exists q :: w'.outbound == w.outbound + [q] && q.answers == Some(AwaitingOf(s)[0]) && Proper(q))
  {
    var s, w' := w.inbound[0], Step(w, AgentHandles(denied, handled));
    AnswersExactlyTheAwaited(denied, s.request, handled);
    AwaitingIsExpectable(s);
    if AwaitingOf(s) != [] {
      AnswerIsProper(denied, s, handled);
      hide Proper, AwaitingOf, Dispatch, AwaitsResponse;
      assert w'.outbound == w.outbound + [Queued(Dispatch(denied, s.request, handled).value, Some(AwaitingOf(s)[0]))];
    }
  }

  /** Taking one answer off the queue of those owed, and putting it on the wire. */
  lemma HandleKeeps(w: World, denied: bool, handled: Handled)
    requires Inv(w) && w.inbound != []
    ensures Inv(Step(w, AgentHandles(denied, handled)))
  {
    hide Step, Dispatch, AwaitsResponse, AwaitingOf, AwaitedIn, AnsweredBy, Takers, Expectable, Proper, IsEvent;
    var s, w' := w.inbound[0], Step(w, AgentHandles(denied, handled));
    AwaitedNext(w.inbound);
    HandleStep(w, denied, handled);
    if AwaitingOf(s) != [] {
      var a := AwaitingOf(s)[0];
      var q :| w'.outbound == w.outbound + [q] && q.answers == Some(a) && Proper(q);
      AnsweredSnoc(w.outbound, q);
      Seqs.Regroup(AnsweredBy(w.outbound), [a], AwaitedIn(w.inbound[1..]));
    }
  }

  lemma AnswerIsProper(denied: bool, s: Sent, handled: Handled)
    requires AwaitingOf(s) != []
    ensures var response := Dispatch(denied, s.request, handled);
            response.Some? && Proper(Queued(response.value, Some(AwaitingOf(s)[0])))
  {
    hide Valid;
  }

  lemma HearKeeps(w: World)
    requires Inv(w) && w.outbound != []
    ensures Inv(Step(w, ClientHears))
  {
    var q := w.outbound[0];
    assert Proper(q);
    if q.answers.Some? {
      HearAnswer(w, q);
    } else {
      HearEvent(w, q);
    }
  }

  lemma AnsweredNext(queue: seq<Queued>)
    requires queue != []
    ensures AnsweredBy(queue)
         == if queue[0].answers.Some? then [queue[0].answers.value] + AnsweredBy(queue[1..])
            else AnsweredBy(queue[1..])
  {
    assert [] + AnsweredBy(queue[1..]) == AnsweredBy(queue[1..]);
  }

  lemma TakersSnoc(resolved: seq<(Awaiting, Queued)>, p: (Awaiting, Queued))
    ensures Takers(resolved + [p]) == Takers(resolved) + [p.0]
  {
    assert (resolved + [p])[..|resolved|] == resolved;
  }

  /** What the client does with a proper frame: an answer for its head is taken, an event is not. */
  lemma HearStep(w: World, q: Queued)
    requires w.outbound != [] && q == w.outbound[0] && Proper(q)
    requires q.answers.Some? ==> w.pending != [] && w.pending[0] == q.answers.value
    requires w.pending != [] ==> Expectable(w.pending[0])
    ensures Step(w, ClientHears)
         == if q.answers.Some?
            then w.(outbound := w.outbound[1..], pending := w.pending[1..],
                    resolved := w.resolved + [(q.answers.value, q)])
            else w.(outbound := w.outbound[1..], heard := w.heard + [q])
  {
  }

  /** The head of the client's queue is the request this frame answers. */
  lemma HearAnswer(w: World, q: Queued)
    requires Inv(w) && w.outbound != [] && q == w.outbound[0] && Proper(q) && q.answers.Some?
    ensures Inv(Step(w, ClientHears))
  {
    hide Proper, IsEvent, Expectable, AwaitedIn, AnsweredBy, Takers, Step;
    var a := q.answers.value;
    var owed := AnsweredBy(w.outbound[1..]) + AwaitedIn(w.inbound);
    AnsweredNext(w.outbound);
    Seqs.Regroup([a], AnsweredBy(w.outbound[1..]), AwaitedIn(w.inbound));
    assert w.pending == [a] + owed && w.pending[0] == a && w.pending[1..] == owed;
    HearStep(w, q);
    TakersSnoc(w.resolved, (a, q));
    Seqs.Regroup(Takers(w.resolved), [a], owed);
  }

  lemma HearEvent(w: World, q: Queued)
    requires Inv(w) && w.outbound != [] && q == w.outbound[0] && Proper(q) && q.answers.None?
    ensures Inv(Step(w, ClientHears))
  {
    hide IsEvent, Expectable, AwaitedIn, AnsweredBy, Takers, Step;
    assert w.pending != [] ==> Expectable(w.pending[0]);
    AnsweredNext(w.outbound);
    HearStep(w, q);
  }

  lemma StepKeeps(w: World, e: Event)
    requires Inv(w)
    ensures Inv(Step(w, e))
  {
    hide Inv, Dispatch, Hear;
    if Enabled(w, e) {
      match e
      case ClientSends(request) => SendKeeps(w, request);
      case AgentHandles(denied, handled) => HandleKeeps(w, denied, handled);
      case AgentNotifies(event) => NotifyKeeps(w, event);
      case ClientHears => HearKeeps(w);
    }
  }

  lemma NotifyKeeps(w: World, event: Response)
    requires Inv(w) && IsEvent(event)
    ensures Inv(Step(w, AgentNotifies(event)))
  {
    hide AwaitedIn, AnsweredBy, Takers, Expectable, IsEvent;
    AnsweredSnoc(w.outbound, Queued(event, None));
  }

  lemma {:induction false} RunsKeep(events: seq<Event>)
    ensures Inv(Run(events))
  {
    if events != [] {
      RunsKeep(events[..|events| - 1]);
      StepKeeps(Run(events[..|events| - 1]), events[|events| - 1]);
    }
  }

  // ------------------------------------------------------------------
  // Every answer is its own request's
  // ------------------------------------------------------------------

  /** Some step of the run dispatched this request and got this response. */
  ghost predicate Dispatched(events: seq<Event>, r: Request, response: Response) {
    exists e :: e in events && e.AgentHandles? && Dispatch(e.denied, r, e.handled) == Some(response)
  }

  /** What the frame answers is a request that was sent, and it is the response that request got. */
  ghost predicate FromItsRequest(sent: seq<Sent>, events: seq<Event>, q: Queued) {
    q.answers.Some? ==>
      && q.answers.value.id < |sent|
      && AwaitingOf(sent[q.answers.value.id]) == [q.answers.value]
      && Dispatched(events, sent[q.answers.value.id].request, q.response)
  }

  ghost predicate Numbered(sent: seq<Sent>, s: Sent) {
    s.id < |sent| && sent[s.id] == s
  }

  ghost predicate Traced(w: World, events: seq<Event>) {
    && (forall s | s in w.inbound :: Numbered(w.sent, s))
    && (forall q | q in w.outbound :: FromItsRequest(w.sent, events, q))
    && (forall p | p in w.resolved :: FromItsRequest(w.sent, events, p.1))
  }

  lemma StillFrom(sent: seq<Sent>, sent': seq<Sent>, events: seq<Event>, e: Event, q: Queued)
    requires sent <= sent' && FromItsRequest(sent, events, q)
    ensures FromItsRequest(sent', events + [e], q)
  {
    hide Dispatch, AwaitingOf;
    if q.answers.Some? {
      var r := sent[q.answers.value.id].request;
      var was :| was in events && was.AgentHandles? && Dispatch(was.denied, r, was.handled) == Some(q.response);
      assert was in events + [e];
    }
  }

  lemma HandledFrom(w: World, events: seq<Event>, denied: bool, handled: Handled)
    requires w.inbound != [] && Numbered(w.sent, w.inbound[0])
    ensures var w' := Step(w, AgentHandles(denied, handled));
            forall q | q in w'.outbound :: q in w.outbound
                         || FromItsRequest(w.sent, events + [AgentHandles(denied, handled)], q)
  {
    var s, e := w.inbound[0], AgentHandles(denied, handled);
    var response := Dispatch(denied, s.request, handled);
    AwaitingIsExpectable(s);
    hide Dispatch, AwaitingOf, AwaitsResponse;
    if response.Some? {
      assert e in events + [e];
      assert Dispatched(events + [e], s.request, response.value);
    }
  }

  lemma StepTraces(w: World, events: seq<Event>, e: Event)
    requires Traced(w, events)
    ensures Traced(Step(w, e), events + [e])
  {
    var w' := Step(w, e);
    if e.AgentHandles? && w.inbound != [] {
      HandledFrom(w, events, e.denied, e.handled);
    }
    hide Dispatch, AwaitingOf, Dispatched, IsEvent;
    assert w.sent <= w'.sent;
    forall q | q in w'.outbound
      ensures FromItsRequest(w'.sent, events + [e], q)
    {
      if q in w.outbound {
        StillFrom(w.sent, w'.sent, events, e, q);
      }
    }
    forall p | p in w'.resolved
      ensures FromItsRequest(w'.sent, events + [e], p.1)
    {
      StillFrom(w.sent, w'.sent, events, e, p.1);
    }
  }

  /**
   * On every run whatever answers a request is what dispatching that very request gave, at some step of the run; so
   * nobody is ever told of an error that was not their own.
   */
  lemma {:induction false} AnswersAreTheRequests(events: seq<Event>)
    ensures Traced(Run(events), events)
  {
    if events != [] {
      var before, e := events[..|events| - 1], events[|events| - 1];
      AnswersAreTheRequests(before);
      StepTraces(Run(before), before, e);
      assert before + [e] == events;
    }
  }

  // ------------------------------------------------------------------
  // Matching never slips
  // ------------------------------------------------------------------

  /**
   * On every run the answers taken so far are those of the first awaited requests, in the order they were
   * sent, each the very response its own request got; the other awaited requests are still pending, in
   * order; and what the listeners heard is events.
   */
  lemma MatchingNeverSlips(events: seq<Event>)
    ensures var w := Run(events);
            && Takers(w.resolved) + w.pending == AwaitedIn(w.sent)
            && (forall p | p in w.resolved :: p.1.answers == Some(p.0) && !IsEvent(p.1.response))
            && (forall p | p in w.resolved :: FromItsRequest(w.sent, events, p.1))
            && (forall q | q in w.heard :: q.answers.None? && IsEvent(q.response))
  {
    RunsKeep(events);
    AnswersAreTheRequests(events);
    hide Run, FromItsRequest;
  }

  /** And nobody is left waiting: once both directions are empty, every awaited request has its answer. */
  lemma EveryAwaitedIsAnswered(events: seq<Event>)
    requires Run(events).inbound == [] && Run(events).outbound == []
    ensures Run(events).pending == [] && Takers(Run(events).resolved) == AwaitedIn(Run(events).sent)
  {
    RunsKeep(events);
  }
}
