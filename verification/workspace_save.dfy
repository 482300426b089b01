// The workspace save controller: one background writer, a one-slot queue merged
// by priority, and the generations that decide whether edits are unsaved.

module WorkspaceSave {
  import opened Common
  import opened WorkspaceSessions

  // ---------------------------------------------------------------------
  // Requests
  // ---------------------------------------------------------------------

  /** The (kind, reason) pairs that are ever requested. */
  datatype Kind = AutoSave | ManualSave | SnapshotSave | RollbackTo | CloseWorkspace

  /** `detail` carries a snapshot label or the snapshot to roll back to. */
  datatype Request = Request(kind: Kind, detail: string, generation: nat)

  function Priority(kind: Kind): nat {
    match kind
    case AutoSave => 1
    case ManualSave => 2
    case SnapshotSave => 3
    case RollbackTo => 4
    case CloseWorkspace => 5
  }

  function Merge(current: Option<Request>, incoming: Request): Option<Request> {
    if current.None? || Priority(incoming.kind) >= Priority(current.value.kind) then Some(incoming) else current
  }

  /** The one-slot queue after a sequence of requests. */
  function MergeAll(requests: seq<Request>): Option<Request> {
    if requests == [] then None else Merge(MergeAll(requests[..|requests| - 1]), requests[|requests| - 1])
  }

  /** What may take the place of a waiting request: a close only another close, a
      rollback also a close, a snapshot also a rollback, a manual save anything but
      an automatic one. */
  predicate MayDisplace(incoming: Kind, waiting: Kind) {
    match waiting
    case CloseWorkspace => incoming.CloseWorkspace?
    case RollbackTo => incoming.RollbackTo? || incoming.CloseWorkspace?
    case SnapshotSave => incoming.SnapshotSave? || incoming.RollbackTo? || incoming.CloseWorkspace?
    case ManualSave => !incoming.AutoSave?
    case AutoSave => true
  }

  lemma MergeDisplaces(waiting: Request, incoming: Request)
    ensures Merge(Some(waiting), incoming) == Some(if MayDisplace(incoming.kind, waiting.kind) then incoming else waiting)
  {
  }

  /** `requests[i]` may displace all requests, and none after it may displace it. */
  predicate LatestHighest(requests: seq<Request>, i: nat) {
    && i < |requests|
    && (forall j :: 0 <= j < |requests| ==> MayDisplace(requests[i].kind, requests[j].kind))
    && (forall j :: i < j < |requests| ==> !MayDisplace(requests[j].kind, requests[i].kind))
  }

  /** The slot holds exactly the latest request of the highest priority. */
  lemma {:induction false} MergeAllIsLatestHighest(requests: seq<Request>)
    ensures requests == [] ==> MergeAll(requests) == None
    ensures requests != [] ==> exists i: nat :: LatestHighest(requests, i) && MergeAll(requests) == Some(requests[i])
  {
    if requests != [] {
      var n := |requests| - 1;
      var rest := requests[..n];
      MergeAllIsLatestHighest(rest);
      assert requests == rest + [requests[n]];
      if rest == [] {
        assert LatestHighest(requests, 0);
      } else {
        var i: nat :| LatestHighest(rest, i) && MergeAll(rest) == Some(rest[i]);
        MergeDisplaces(rest[i], requests[n]);
        if MayDisplace(requests[n].kind, rest[i].kind) {
          assert LatestHighest(requests, n);
        } else {
          assert LatestHighest(requests, i);
        }
      }
    }
  }

  /** A request that ever waited gives way only to what may displace it. */
  lemma WaitingKept(requests: seq<Request>, i: nat)
    requires i < |requests|
    ensures MergeAll(requests).Some? && MayDisplace(MergeAll(requests).value.kind, requests[i].kind)
  {
    MergeAllIsLatestHighest(requests);
    var k: nat :| LatestHighest(requests, k) && MergeAll(requests) == Some(requests[k]);
    assert MayDisplace(requests[k].kind, requests[i].kind);
  }

  // ---------------------------------------------------------------------
  // The controller
  // ---------------------------------------------------------------------

  datatype Outcome = Committed(changed: bool, skipped: bool) | Failed(conflict: bool)

  /** A worker: `outcome` is set once it ran and released its lease. Two history
      fields say how many edits had been reported when it started and whether the
      close preparer succeeded. */
  datatype Worker = Worker(session: nat, request: Request, edits: nat, prepared: bool, outcome: Option<Outcome>)

  datatype Ui = NoWorkspace | Saved | Unsaved | Saving | SaveFailed | SaveConflict

  /** The last three fields are history: edits reported in this session, those
      reported when the last confirmed operation started, and the requests
      accepted for the queue since it was last emptied. */
  datatype State = State(
    busy: bool, ui: Ui, generation: nat, savedGeneration: nat, pending: Option<Request>,
    workers: map<nat, Worker>, nextToken: nat, shuttingDown: bool, welcome: Welcome, nextSession: nat,
    edits: nat, confirmed: nat, waiting: seq<Request>)
  {
    predicate Dirty() {
      generation > savedGeneration
    }

    predicate HasWorkspace() {
      welcome.active.Some?
    }
  }

  const START := State(false, NoWorkspace, 0, 0, None, map[], 0, false, Welcome(None, [], map[]), 0, 0, 0, [])

  function MarkDirty(s: State): State {
    if !s.HasWorkspace() then s
    else
      s.(generation := s.generation + 1, edits := s.edits + 1, ui := if s.busy then s.ui else Unsaved)
  }

  /** Start an operation for the active session; `pool` says whether the thread
      pool takes the worker. The flag is false when nothing was started. */
  function Start(s: State, request: Request, pool: bool): (State, bool) {
    if s.welcome.active.None? || s.welcome.active.value !in s.welcome.sessions
      || s.welcome.sessions[s.welcome.active.value].closeRequested
    then (s, false)
    else
      var id := s.welcome.active.value;
      var session := s.welcome.sessions[id];
      if pool then
        (s.(busy := true, ui := Saving, nextToken := s.nextToken + 1,
            workers := s.workers[s.nextToken := Worker(id, request.(generation := s.generation), s.edits, false, None)],
            welcome := s.welcome.(sessions := s.welcome.sessions[id := session.(operations := session.operations + 1)])), true)
      else
        (s.(busy := false, ui := Saving, nextToken := s.nextToken + 1), false)
  }

  function Queue(s: State, request: Request): State {
    s.(pending := Merge(s.pending, request), waiting := s.waiting + [request])
  }

  /** A request from the user or a timer; the flag is its acceptance. */
  function Enqueue(s: State, kind: Kind, detail: string, pool: bool): (State, bool) {
    if s.shuttingDown || !s.HasWorkspace() || (kind.RollbackTo? && detail == "") then (s, false)
    else
      var request := Request(kind, detail, s.generation);
      if s.busy then (Queue(s, request), true) else Start(s, request, pool)
  }

  function DropQueue(s: State): State {
    s.(pending := None, waiting := [])
  }

  function WorkspaceChanged(s: State): State {
    DropQueue(s).(generation := 0, savedGeneration := 0, edits := 0, confirmed := 0,
                  ui := if s.welcome.active.None? then NoWorkspace else Saved)
  }

  /** A background run: the preparer of a close comes first, then the package is
      written, and whatever happens the lease is released. */
  function RunOutcome(kind: Kind, prepared: bool, written: Outcome, leaseRaised: bool): Outcome {
    if kind.CloseWorkspace? && !prepared then Failed(false)
    else if written.Failed? then written
    else if leaseRaised then Failed(false)
    else written
  }

  predicate Running(s: State, token: nat) {
    token in s.workers && s.workers[token].outcome.None?
  }

  /** The worker ran; its completion is still to be delivered. */
  predicate Ready(s: State, token: nat) {
    token in s.workers && s.workers[token].outcome.Some?
  }

  predicate CanRun(s: State, token: nat) {
    && Running(s, token)
    && s.workers[token].session in s.welcome.sessions && s.welcome.sessions[s.workers[token].session].operations > 0
  }

  function WorkerRuns(s: State, token: nat, prepared: bool, written: Outcome, removable: bool): State {
    if !CanRun(s, token) then s
    else
      var worker := s.workers[token];
      var (session, raised) := EndLease(s.welcome.sessions[worker.session], removable);
      s.(workers := s.workers[token := worker.(prepared := prepared,
           outcome := Some(RunOutcome(worker.request.kind, prepared, written, raised)))],
         welcome := s.welcome.(sessions := s.welcome.sessions[worker.session := session]))
  }

  predicate CanClose(s: State) {
    s.welcome.active.Some? ==> s.welcome.active.value in s.welcome.sessions
  }

  function CloseActive(s: State, tries: Attempts): State
    requires CanClose(s)
  {
    if s.welcome.active.None? then s else WorkspaceChanged(s.(welcome := CloseProject(s.welcome, tries)))
  }

  /** The rest of a completion: run what is waiting, if it is for this session. */
  function StartWaiting(s: State, session: nat, pool: bool): State {
    var emptied := DropQueue(s);
    if s.pending.Some? && s.welcome.active == Some(session) then Start(emptied, s.pending.value, pool).0 else emptied
  }

  function Larger(a: nat, b: nat): nat {
    if a >= b then a else b
  }

  function Confirm(s: State, worker: Worker, changed: bool): State {
    var saved := s.(savedGeneration := Larger(s.savedGeneration, worker.request.generation), confirmed := worker.edits);
    var marked := if !changed then saved
                  else
                    var grown := saved.(generation := Larger(saved.generation, worker.request.generation + 1));
                    Queue(grown, Request(AutoSave, "", grown.generation));
    marked.(ui := if marked.Dirty() then Unsaved else Saved)
  }

  /** A completed worker is forgotten before its result is looked at. */
  function Idle(s: State, token: nat): State {
    s.(workers := s.workers - {token}, busy := false)
  }

  /** A worker of the active session. */
  predicate Own(s: State, token: nat) {
    token in s.workers && s.welcome.active == Some(s.workers[token].session)
  }

  /** What a result changes: nothing, when the session was retired meanwhile. */
  function Told(s: State, token: nat): State
    requires Ready(s, token)
  {
    var idle := Idle(s, token);
    if !Own(s, token) then idle
    else
      match s.workers[token].outcome.value
      case Failed(conflict) => idle.(ui := if conflict then SaveConflict else SaveFailed)
      case Committed(changed, _) => Confirm(idle, s.workers[token], changed)
  }

  predicate Closes(s: State, token: nat) {
    && Ready(s, token) && Own(s, token)
    && s.workers[token].outcome.value.Committed? && s.workers[token].request.kind.CloseWorkspace?
  }

  /** The completion of a worker that has run, on the GUI thread. */
  function Finished(s: State, token: nat, pool: bool, tries: Attempts): State
    requires CanClose(s)
  {
    if !Ready(s, token) then s
    else if Closes(s, token) then CloseActive(DropQueue(Told(s, token)), tries)
    else StartWaiting(Told(s, token), s.workers[token].session, pool)
  }

  function Opened(s: State, tries: Attempts): State
    requires CanClose(s)
  {
    WorkspaceChanged(s.(welcome := Activate(s.welcome, s.nextSession, tries), nextSession := s.nextSession + 1))
  }

  /** Shutdown waits for running workers and then closes; completions that are
      still queued are forgotten with the workers. */
  function Stopped(s: State, tries: Attempts): State
    requires CanClose(s)
  {
    CloseActive(DropQueue(s).(shuttingDown := true, workers := map[]), tries)
  }

  datatype Event =
    | Edit
    | Ask(kind: Kind, detail: string, pool: bool)
    | Runs(token: nat, prepared: bool, written: Outcome, removable: bool)
    | Finish(token: nat, pool: bool, tries: Attempts)
    | Open(tries: Attempts)
    | Leave(tries: Attempts)
    | Stop(tries: Attempts)

  /** Shutdown happens once no worker is running. */
  predicate Enabled(s: State, e: Event) {
    e.Stop? ==> forall t :: t in s.workers ==> Ready(s, t)
  }

  function After(s: State, e: Event): State
    requires CanClose(s)
  {
    match e
    case Edit => MarkDirty(s)
    case Ask(kind, detail, pool) => Enqueue(s, kind, detail, pool).0
    case Runs(token, prepared, written, removable) => WorkerRuns(s, token, prepared, written, removable)
    case Finish(token, pool, tries) => Finished(s, token, pool, tries)
    case Open(tries) => Opened(s, tries)
    case Leave(tries) => CloseActive(s, tries)
    case Stop(tries) => Stopped(s, tries)
  }

  // ---------------------------------------------------------------------
  // What every run keeps
  // ---------------------------------------------------------------------

  /** A running worker of session `id`. */
  predicate HoldsLease(workers: map<nat, Worker>, token: nat, id: nat) {
    token in workers && workers[token].outcome.None? && workers[token].session == id
  }

  ghost predicate Leased(workers: map<nat, Worker>, id: nat) {
    exists t :: HoldsLease(workers, t, id)
  }

  /** Every session has as many leases as running workers: one or none. */
  ghost predicate LeasesMatch(workers: map<nat, Worker>, sessions: map<nat, Session>) {
    forall id :: id in sessions ==> sessions[id].operations == if Leased(workers, id) then 1 else 0
  }

  /** One worker at a time, exactly while the controller is busy; a shutdown
      forgets a completion that was still to be delivered. */
  ghost predicate SingleWriter(s: State) {
    && (forall t, u :: t in s.workers && u in s.workers ==> t == u)
    && (forall t :: t in s.workers ==> t < s.nextToken && s.workers[t].session in s.welcome.sessions)
    && (!s.busy ==> s.workers == map[])
    && (s.busy && !s.shuttingDown ==> s.workers != map[])
  }

  /** Generations count the edits reported since the worker started. */
  predicate InStep(s: State, w: Worker) {
    && s.savedGeneration <= w.request.generation <= s.generation
    && s.generation - w.request.generation == s.edits - w.edits
    && s.confirmed <= w.edits
  }

  /** The generations tell the truth about the reported edits. */
  predicate Truthful(s: State) {
    && s.savedGeneration <= s.generation && s.confirmed <= s.edits
    && (!s.Dirty() ==> s.confirmed == s.edits)
    && (!s.HasWorkspace() ==> !s.Dirty())
  }

  ghost predicate WorkersHonest(s: State) {
    && (forall t :: Own(s, t) ==> InStep(s, s.workers[t]) && s.ui == Saving)
    && (forall t :: Ready(s, t) && s.workers[t].request.kind.CloseWorkspace? && s.workers[t].outcome.value.Committed? ==>
      s.workers[t].prepared)
  }

  ghost predicate Sessions(s: State) {
    && Tracked(s.welcome) && (forall id :: id in s.welcome.sessions ==> id < s.nextSession)
    && LeasesMatch(s.workers, s.welcome.sessions)
  }

  predicate QueueHonest(s: State) {
    && s.pending == MergeAll(s.waiting)
    && (!s.HasWorkspace() ==> s.waiting == [])
  }

  ghost predicate Core(s: State) {
    Sessions(s) && SingleWriter(s) && Truthful(s) && WorkersHonest(s) && QueueHonest(s)
  }

  ghost predicate Inv(s: State) {
    Core(s) && (!s.busy ==> s.waiting == [])
  }

  lemma MergeOneMore(requests: seq<Request>, incoming: Request)
    ensures MergeAll(requests + [incoming]) == Merge(MergeAll(requests), incoming)
  {
    assert (requests + [incoming])[..|requests|] == requests;
  }

  /** An idle controller with a workspace starts, or is left idle by the pool. */
  lemma StartInv(s: State, request: Request, pool: bool)
    requires Core(s) && !s.busy && s.waiting == []
    ensures Inv(Start(s, request, pool).0)
    ensures Start(s, request, pool).1 <==> pool && s.HasWorkspace()
  {
    if s.HasWorkspace() && pool {
      var id := s.welcome.active.value;
      BeginLeaseTracked(s.welcome, id);
      StartLeases(s.nextToken, Worker(id, request.(generation := s.generation), s.edits, false, None), s.welcome.sessions);
    }
  }

  lemma StartLeases(token: nat, worker: Worker, sessions: map<nat, Session>)
    requires LeasesMatch(map[], sessions) && worker.outcome.None? && worker.session in sessions
    ensures var id := worker.session;
      LeasesMatch(map[token := worker], sessions[id := sessions[id].(operations := sessions[id].operations + 1)])
  {
    var none: map<nat, Worker> := map[];
    assert HoldsLease(map[token := worker], token, worker.session);
    assert forall id :: !Leased(none, id);
  }

  lemma QueueInv(s: State, request: Request)
    requires Core(s) && s.HasWorkspace()
    ensures Core(Queue(s, request))
  {
    MergeOneMore(s.waiting, request);
    QueueOnly(s, Queue(s, request));
  }

  lemma QueueOnly(s: State, after: State)
    requires Core(s) && after == s.(pending := after.pending, waiting := after.waiting)
    ensures Sessions(after) && SingleWriter(after) && Truthful(after) && WorkersHonest(after)
  {
    assert forall t :: Own(after, t) <==> Own(s, t);
    assert forall t :: Ready(after, t) <==> Ready(s, t);
  }

  lemma EnqueueInv(s: State, kind: Kind, detail: string, pool: bool)
    requires Inv(s)
    ensures Inv(Enqueue(s, kind, detail, pool).0)
  {
    if !s.shuttingDown && s.HasWorkspace() {
      var request := Request(kind, detail, s.generation);
      if s.busy {
        QueueInv(s, request);
      } else {
        StartInv(s, request, pool);
      }
    }
  }

  lemma RunLeases(workers: map<nat, Worker>, token: nat, done: Worker, sessions: map<nat, Session>, ended: Session)
    requires forall t, u :: t in workers && u in workers ==> t == u
    requires LeasesMatch(workers, sessions) && token in workers && HoldsLease(workers, token, done.session)
    requires done.outcome.Some? && done.session in sessions && ended.operations == sessions[done.session].operations - 1
    ensures LeasesMatch(workers[token := done], sessions[done.session := ended])
  {
    assert Leased(workers, done.session);
    var finished := workers[token := done];
    assert forall id :: !Leased(finished, id);
    assert forall id :: id != done.session ==> !Leased(workers, id);
  }

  lemma RunsInv(s: State, token: nat, prepared: bool, written: Outcome, removable: bool)
    requires Inv(s)
    ensures Inv(WorkerRuns(s, token, prepared, written, removable))
  {
    if CanRun(s, token) {
      var id := s.workers[token].session;
      var after := WorkerRuns(s, token, prepared, written, removable);
      EndLeaseTracked(s.welcome, id, removable);
      RunLeases(s.workers, token, after.workers[token], s.welcome.sessions, after.welcome.sessions[id]);
    }
  }

  /** Closing and opening sessions leaves every lease as it was. */
  lemma LeasesKept(workers: map<nat, Worker>, sessions: map<nat, Session>, after: map<nat, Session>)
    requires LeasesMatch(workers, sessions) && forall t :: t in workers ==> workers[t].session in sessions
    requires forall id :: id in after ==>
      if id in sessions then after[id].operations == sessions[id].operations else after[id].operations == 0
    ensures LeasesMatch(workers, after)
  {
    forall id | id in after && id !in sessions
      ensures !Leased(workers, id)
    {
    }
  }

  lemma CloseActiveInv(s: State, tries: Attempts)
    requires Core(s) && s.HasWorkspace()
    ensures Inv(CloseActive(s, tries)) && !CloseActive(s, tries).HasWorkspace()
  {
    CloseTracked(s.welcome, tries);
    LeasesKept(s.workers, s.welcome.sessions, CloseActive(s, tries).welcome.sessions);
  }

  lemma OpenedInv(s: State, tries: Attempts)
    requires Inv(s)
    ensures Inv(Opened(s, tries))
  {
    ActivateTracked(s.welcome, s.nextSession, tries);
    LeasesKept(s.workers, s.welcome.sessions, Opened(s, tries).welcome.sessions);
  }

  lemma StoppedInv(s: State, tries: Attempts)
    requires Inv(s) && Enabled(s, Stop(tries))
    ensures Inv(Stopped(s, tries))
  {
    var dropped := DropQueue(s).(shuttingDown := true, workers := map[]);
    assert forall id :: !Leased(s.workers, id) && !Leased(dropped.workers, id);
    assert Core(dropped);
    if s.HasWorkspace() {
      CloseActiveInv(dropped, tries);
    }
  }

  lemma IdleCore(s: State, token: nat)
    requires Inv(s) && Ready(s, token)
    ensures Core(Idle(s, token)) && Idle(s, token).workers == map[]
  {
    assert forall id :: !Leased(s.workers, id) && !Leased(Idle(s, token).workers, id);
  }

  lemma StartWaitingInv(s: State, session: nat, pool: bool)
    requires Core(s) && !s.busy
    ensures Inv(StartWaiting(s, session, pool))
  {
    var emptied := DropQueue(s);
    assert Core(emptied);
    if s.pending.Some? && s.welcome.active == Some(session) {
      StartInv(emptied, s.pending.value, pool);
    }
  }

  lemma ConfirmCore(s: State, worker: Worker, changed: bool)
    requires Core(s) && s.workers == map[] && InStep(s, worker) && s.HasWorkspace()
    ensures Core(Confirm(s, worker, changed))
    ensures Confirm(s, worker, changed).Dirty() <==> changed || s.edits > worker.edits
  {
    SameSessions(s, Confirm(s, worker, changed));
    ConfirmQueue(s, worker, changed);
  }

  lemma ConfirmQueue(s: State, worker: Worker, changed: bool)
    requires QueueHonest(s) && s.HasWorkspace()
    ensures QueueHonest(Confirm(s, worker, changed))
  {
    if changed {
      MergeOneMore(s.waiting, Request(AutoSave, "", Confirm(s, worker, changed).generation));
    }
  }

  lemma SameSessions(s: State, after: State)
    requires Sessions(s) && s.workers == map[]
    requires after.welcome == s.welcome && after.workers == s.workers && after.nextSession == s.nextSession
    ensures Sessions(after) && WorkersHonest(after)
  {
  }

  /** What waits after a completion: a package that changed meanwhile adds one
      automatic save. */
  function Asked(s: State, token: nat): seq<Request>
    requires Ready(s, token)
  {
    var outcome := s.workers[token].outcome.value;
    if Own(s, token) && outcome.Committed? && outcome.changed then s.waiting + [Follow(s, token)] else s.waiting
  }

  function Follow(s: State, token: nat): Request
    requires Ready(s, token)
  {
    Request(AutoSave, "", Larger(s.generation, s.workers[token].request.generation + 1))
  }

  lemma ToldCore(s: State, token: nat)
    requires Inv(s) && Ready(s, token)
    ensures Core(Told(s, token)) && Told(s, token).workers == map[] && !Told(s, token).busy
    ensures Told(s, token).waiting == Asked(s, token) && Told(s, token).welcome == s.welcome
    ensures Told(s, token).nextToken == s.nextToken
  {
    IdleCore(s, token);
    var worker := s.workers[token];
    if Own(s, token) && worker.outcome.value.Committed? {
      ConfirmCore(Idle(s, token), worker, worker.outcome.value.changed);
    }
  }

  lemma FinishedInv(s: State, token: nat, pool: bool, tries: Attempts)
    requires Inv(s)
    ensures Inv(Finished(s, token, pool, tries))
    ensures Closes(s, token) ==> Closed(Finished(s, token, pool, tries))
  {
    if Ready(s, token) {
      ToldCore(s, token);
      if Closes(s, token) {
        CloseActiveInv(DropQueue(Told(s, token)), tries);
      } else {
        StartWaitingInv(Told(s, token), s.workers[token].session, pool);
      }
    }
  }

  predicate Closed(s: State) {
    !s.HasWorkspace() && s.waiting == [] && s.pending == None
  }

  lemma StepInv(s: State, e: Event)
    requires Inv(s) && Enabled(s, e)
    ensures Inv(After(s, e))
  {
    match e
    case Edit =>
    case Ask(kind, detail, pool) => EnqueueInv(s, kind, detail, pool);
    case Runs(token, prepared, written, removable) => RunsInv(s, token, prepared, written, removable);
    case Finish(token, pool, tries) => FinishedInv(s, token, pool, tries);
    case Open(tries) => OpenedInv(s, tries);
    case Leave(tries) => if s.HasWorkspace() { CloseActiveInv(s, tries); }
    case Stop(tries) => StoppedInv(s, tries);
  }

  // ---------------------------------------------------------------------
  // Unsaved edits
  // ---------------------------------------------------------------------

  predicate LeavesWorkspace(s: State, e: Event) {
    s.HasWorkspace() && (e.Open? || e.Leave? || e.Stop? || (e.Finish? && Closes(s, e.token)))
  }

  /** A package written by this session covers every edit reported so far. */
  predicate CoversEdits(s: State, e: Event) {
    && e.Finish? && Ready(s, e.token) && Own(s, e.token)
    && s.workers[e.token].outcome.value.Committed? && !s.workers[e.token].outcome.value.changed
    && s.workers[e.token].edits == s.edits
  }

  lemma StartWaitingKeeps(s: State, session: nat, pool: bool)
    ensures var after := StartWaiting(s, session, pool);
      && after.generation == s.generation && after.savedGeneration == s.savedGeneration && after.edits == s.edits
      && after.welcome.active == s.welcome.active && after.waiting == []
  {
  }

  lemma ToldDirtyIff(s: State, token: nat)
    requires Inv(s) && Ready(s, token)
    ensures s.Dirty() ==> (!Told(s, token).Dirty() <==> CoversEdits(s, Finish(token, true, Attempts(true, true, true))))
  {
    var worker := s.workers[token];
    if Own(s, token) && worker.outcome.value.Committed? {
      IdleCore(s, token);
      ConfirmCore(Idle(s, token), worker, worker.outcome.value.changed);
    }
  }

  /** Unsaved edits stop being reported as unsaved exactly when the workspace is
      left or a package that covers all of them is confirmed. */
  lemma DirtyClearsIff(s: State, e: Event)
    requires Inv(s) && Enabled(s, e) && s.Dirty()
    ensures !After(s, e).Dirty() <==> LeavesWorkspace(s, e) || CoversEdits(s, e)
  {
    if e.Finish? && Ready(s, e.token) {
      ToldCore(s, e.token);
      ToldDirtyIff(s, e.token);
      FinishedInv(s, e.token, e.pool, e.tries);
      if !Closes(s, e.token) {
        StartWaitingKeeps(Told(s, e.token), s.workers[e.token].session, e.pool);
      }
    }
  }

  /** A completion takes the active session away exactly when it is that session's
      own successful close, and that close prepared successfully first. */
  lemma CloseIsATransaction(s: State, token: nat, pool: bool, tries: Attempts)
    requires Inv(s) && s.HasWorkspace()
    ensures var after := Finished(s, token, pool, tries);
      && (after.welcome.active != s.welcome.active <==> Closes(s, token))
      && (Closes(s, token) ==> s.workers[token].prepared && Closed(after))
  {
    FinishedInv(s, token, pool, tries);
    if Ready(s, token) && !Closes(s, token) {
      ToldCore(s, token);
      StartWaitingKeeps(Told(s, token), s.workers[token].session, pool);
    }
  }

  /** A successful close saves what was reported before it started: the edits that no
      package covers are exactly those reported while it ran. */
  lemma CloseLosesLaterEdits(s: State, token: nat, pool: bool, tries: Attempts)
    requires Inv(s) && Closes(s, token)
    ensures var lost := s.edits - s.workers[token].edits;
      && 0 <= lost == s.generation - s.workers[token].request.generation
      && Told(s, token).confirmed == s.edits - lost
      && Closed(Finished(s, token, pool, tries)) && Finished(s, token, pool, tries).edits == 0
  {
    ToldCore(s, token);
    FinishedInv(s, token, pool, tries);
  }

  // ---------------------------------------------------------------------
  // Waiting requests
  // ---------------------------------------------------------------------

  predicate Completes(s: State, e: Event) {
    e.Finish? && Ready(s, e.token)
  }

  /** What empties the queue without running it: the workspace is left, the
      finished operation belonged to a retired session, or the pool refuses. */
  predicate Discards(s: State, e: Event) {
    || e.Open? || e.Stop? || LeavesWorkspace(s, e)
    || (Completes(s, e) && (!Own(s, e.token) || !e.pool))
  }

  /** Request `r` was started, with the generation of that moment. */
  predicate Started(s: State, after: State, r: Request) {
    && s.nextToken in after.workers && s.nextToken !in s.workers
    && Some(after.workers[s.nextToken].session) == s.welcome.active
    && after.workers[s.nextToken].request == r.(generation := after.generation)
    && after.workers[s.nextToken].edits == after.edits
    && after.workers[s.nextToken].outcome.None?
  }

  ghost predicate StartsLatestHighest(s: State, after: State, asked: seq<Request>) {
    exists i: nat :: LatestHighest(asked, i) && Started(s, after, asked[i])
  }

  lemma StartWaitingStarts(s: State, session: nat)
    requires Core(s) && s.workers == map[] && s.pending.Some? && s.welcome.active == Some(session)
    ensures Started(s, StartWaiting(s, session, true), s.pending.value)
  {
  }

  lemma CompletionStartsWaiting(s: State, e: Event)
    requires Inv(s) && Completes(s, e) && !Discards(s, e) && Asked(s, e.token) != []
    ensures StartsLatestHighest(s, After(s, e), Asked(s, e.token))
  {
    var asked := Asked(s, e.token);
    var told := Told(s, e.token);
    ToldCore(s, e.token);
    MergeAllIsLatestHighest(asked);
    var i: nat :| LatestHighest(asked, i) && MergeAll(asked) == Some(asked[i]);
    StartWaitingStarts(told, s.workers[e.token].session);
    StartedSince(s, told, After(s, e), e, asked[i]);
  }

  lemma StartedSince(s: State, told: State, after: State, e: Event, r: Request)
    requires Completes(s, e) && SingleWriter(s) && told.nextToken == s.nextToken && told.welcome == s.welcome && Started(told, after, r)
    ensures Started(s, after, r)
  {
  }

  lemma CompletionDiscards(s: State, e: Event)
    requires Inv(s) && Completes(s, e) && Discards(s, e)
    ensures After(s, e).waiting == [] && After(s, e).workers == map[]
  {
    ToldCore(s, e.token);
    FinishedInv(s, e.token, e.pool, e.tries);
  }

  /** One step: the queue is discarded, or its latest request of the highest
      priority is started, or it grows by at most one request. */
  lemma WaitingFate(s: State, e: Event)
    requires Inv(s) && Enabled(s, e) && s.waiting != []
    ensures var after := After(s, e);
      if Discards(s, e) then after.waiting == [] && after.workers.Keys <= s.workers.Keys
      else if Completes(s, e) then after.waiting == [] && StartsLatestHighest(s, after, Asked(s, e.token))
      else s.waiting <= after.waiting && |after.waiting| <= |s.waiting| + 1
  {
    if Completes(s, e) {
      if Discards(s, e) {
        CompletionDiscards(s, e);
      } else {
        ToldCore(s, e.token);
        StartWaitingKeeps(Told(s, e.token), s.workers[e.token].session, e.pool);
        CompletionStartsWaiting(s, e);
      }
    }
  }

  /** A request is accepted exactly when it is started at once or joins the queue
      as its last entry. */
  lemma AcceptedIff(s: State, kind: Kind, detail: string, pool: bool)
    requires Inv(s)
    ensures var (after, accepted) := Enqueue(s, kind, detail, pool);
      var request := Request(kind, detail, s.generation);
      && (accepted <==> Started(s, after, request) || after.waiting == s.waiting + [request])
      && (accepted <==> !s.shuttingDown && s.HasWorkspace() && (kind.RollbackTo? ==> detail != "") && (s.busy || pool))
  {
    EnqueueInv(s, kind, detail, pool);
  }

  // ---------------------------------------------------------------------
  // Runs
  // ---------------------------------------------------------------------

  ghost predicate AllEnabled(s: State, events: seq<Event>)
    requires Inv(s)
    decreases |events|
  {
    events != [] ==> Enabled(s, events[0]) && (StepInv(s, events[0]); AllEnabled(After(s, events[0]), events[1..]))
  }

  ghost function Run(s: State, events: seq<Event>): (after: State)
    requires Inv(s) && AllEnabled(s, events)
    ensures Inv(after)
    decreases |events|
  {
    if events == [] then s
    else
      StepInv(s, events[0]);
      Run(After(s, events[0]), events[1..])
  }

  lemma StartsValid()
    ensures Inv(START)
  {
    assert forall t, id :: !HoldsLease(START.workers, t, id);
  }

  /** In every run: one writer, one lease per running worker, no session lost, and
      a controller that is not dirty confirmed an operation that started after the
      last edit. */
  lemma EveryRunHonest(events: seq<Event>)
    requires (StartsValid(); AllEnabled(START, events))
    ensures (StartsValid(); HonestIn(Run(START, events)))
  {
    StartsValid();
    assert Inv(Run(START, events));
  }

  ghost predicate HonestIn(s: State) {
    && SingleWriter(s) && LeasesMatch(s.workers, s.welcome.sessions) && Tracked(s.welcome)
    && s.savedGeneration <= s.generation
    && (!s.Dirty() ==> s.confirmed == s.edits)
    && s.pending == MergeAll(s.waiting)
    && (s.busy && !s.shuttingDown && s.ui == Saved ==> forall t :: t in s.workers ==> !Own(s, t))
  }

  predicate StartsAtLeast(s: State, after: State, waiting: Kind) {
    && s.nextToken in after.workers && s.nextToken !in s.workers
    && MayDisplace(after.workers[s.nextToken].request.kind, waiting)
  }

  lemma StartsEnough(s: State, after: State, asked: seq<Request>, i: nat)
    requires StartsLatestHighest(s, after, asked) && i < |asked|
    ensures StartsAtLeast(s, after, asked[i].kind)
  {
    var k: nat :| LatestHighest(asked, k) && Started(s, after, asked[k]);
    assert MayDisplace(asked[k].kind, asked[i].kind);
  }

  /** The request at place `i` waits until the first event that discards the queue or
      completes an operation. If that event discards, it empties the queue and starts
      nothing; otherwise it starts the request or one that may displace it: after a
      rollback a rollback or a close. */
  ghost predicate WaitsUntilFate(s: State, events: seq<Event>, i: nat)
    requires Inv(s) && AllEnabled(s, events) && i < |s.waiting|
    decreases |events|
  {
    events == [] ||
    (StepInv(s, events[0]);
      var after := After(s, events[0]);
      if Discards(s, events[0]) then after.waiting == [] && after.workers.Keys <= s.workers.Keys
      else if Completes(s, events[0]) then after.waiting == [] && StartsAtLeast(s, after, s.waiting[i].kind)
      else s.waiting <= after.waiting && WaitsUntilFate(after, events[1..], i))
  }

  lemma FateNow(s: State, e: Event, i: nat)
    requires Inv(s) && Enabled(s, e) && i < |s.waiting| && Completes(s, e) && !Discards(s, e)
    ensures After(s, e).waiting == [] && StartsAtLeast(s, After(s, e), s.waiting[i].kind)
  {
    WaitingFate(s, e);
    StartsEnough(s, After(s, e), Asked(s, e.token), i);
  }

  /** So it goes over every run. */
  lemma {:induction false} RequestFate(s: State, events: seq<Event>, i: nat)
    requires Inv(s) && AllEnabled(s, events) && i < |s.waiting|
    ensures WaitsUntilFate(s, events, i)
    decreases |events|
  {
    if events != [] {
      StepInv(s, events[0]);
      WaitingFate(s, events[0]);
      if Completes(s, events[0]) && !Discards(s, events[0]) {
        FateNow(s, events[0], i);
      } else if !Discards(s, events[0]) {
        RequestFate(After(s, events[0]), events[1..], i);
      }
    }
  }

  // ---------------------------------------------------------------------
  // Results
  // ---------------------------------------------------------------------

  /** A background run commits exactly when the package was written, after a successful
      preparation if it is a close, and the end of its lease did not raise; it reports
      a conflict exactly when the writing did. */
  lemma RunCommitsIff(s: State, token: nat, prepared: bool, written: Outcome, removable: bool)
    requires CanRun(s, token)
    ensures var worker, after := s.workers[token], WorkerRuns(s, token, prepared, written, removable);
      var session := s.welcome.sessions[worker.session];
      var writes := worker.request.kind.CloseWorkspace? ==> prepared;
      var raised := session.closeRequested && session.operations == 1 && !session.cleaned && !removable;
      && token in after.workers && after.workers[token].outcome.Some?
      && (after.workers[token].outcome.value.Committed? <==> writes && written.Committed? && !raised)
      && (after.workers[token].outcome.value.Committed? ==> after.workers[token].outcome.value == written)
      && (after.workers[token].outcome.value == Failed(true) <==> writes && written == Failed(true))
  {
  }

  /** After a completion of the active session's operation that does not close it, the
      display says saving if another one starts, else how this one failed, or whether
      edits are unsaved. */
  lemma CompletionDisplay(s: State, token: nat, pool: bool, tries: Attempts)
    requires Inv(s) && Ready(s, token) && Own(s, token) && !Closes(s, token)
    ensures var outcome, after := s.workers[token].outcome.value, Finished(s, token, pool, tries);
      after.ui ==
        if Asked(s, token) != [] then Saving
        else if outcome == Failed(true) then SaveConflict
        else if outcome.Failed? then SaveFailed
        else if after.Dirty() then Unsaved
        else Saved
  {
    ToldCore(s, token);
    var told := Told(s, token);
    assert told.pending.Some? <==> told.waiting != [];
    StartWaitingShows(told, s.workers[token].session, pool);
  }

  lemma StartWaitingShows(s: State, session: nat, pool: bool)
    requires Core(s) && s.welcome.active == Some(session)
    ensures StartWaiting(s, session, pool).ui == if s.pending.Some? then Saving else s.ui
  {
  }

  // ---------------------------------------------------------------------
  // Going idle
  // ---------------------------------------------------------------------

  /** Operations in flight or waiting: at most two. */
  function Work(s: State): (work: nat)
    ensures work <= 2
  {
    (if s.busy then 1 else 0) + (if s.waiting != [] then 1 else 0)
  }

  predicate Changed(outcome: Option<Outcome>) {
    outcome.Some? && outcome.value.Committed? && outcome.value.changed
  }

  /** No package in flight was found changed. */
  predicate Calm(s: State) {
    forall t :: t in s.workers ==> !Changed(s.workers[t].outcome)
  }

  /** Nothing is reported or asked; operations run and complete. */
  predicate Quiet(e: Event) {
    e.Finish? || (e.Runs? && !Changed(Some(e.written)))
  }

  function Completion(s: State, e: Event): nat {
    if Completes(s, e) then 1 else 0
  }

  lemma QuietStep(s: State, e: Event)
    requires Inv(s) && Calm(s) && Quiet(e)
    ensures Enabled(s, e) && Calm(After(s, e))
    ensures Completion(s, e) + Work(After(s, e)) <= Work(s)
  {
    if Completes(s, e) {
      ToldCore(s, e.token);
      FinishedInv(s, e.token, e.pool, e.tries);
    }
  }

  ghost predicate AllQuiet(events: seq<Event>) {
    forall e :: e in events ==> Quiet(e)
  }

  ghost function Completions(s: State, events: seq<Event>): nat
    requires Inv(s) && AllEnabled(s, events)
    decreases |events|
  {
    if events == [] then 0
    else
      StepInv(s, events[0]);
      Completion(s, events[0]) + Completions(After(s, events[0]), events[1..])
  }

  lemma {:induction false} QuietRun(s: State, events: seq<Event>)
    requires Inv(s) && Calm(s) && AllQuiet(events)
    ensures AllEnabled(s, events)
    ensures Completions(s, events) + Work(Run(s, events)) <= Work(s)
    decreases |events|
  {
    if events != [] {
      assert events[0] in events;
      QuietStep(s, events[0]);
      StepInv(s, events[0]);
      QuietRun(After(s, events[0]), events[1..]);
    }
  }

  /** Without new input, two completions leave the controller idle, and there is
      never a third. */
  lemma IdleWithinTwoCompletions(s: State, events: seq<Event>)
    requires Inv(s) && Calm(s) && AllQuiet(events)
    ensures AllEnabled(s, events) && Completions(s, events) <= 2
    ensures Completions(s, events) == 2 ==> !Run(s, events).busy
  {
    QuietRun(s, events);
  }

  // ---------------------------------------------------------------------
  // "Saved"
  // ---------------------------------------------------------------------

  predicate SavedButDirty(s: State) {
    s.ui == Saved && s.Dirty()
  }

  lemma FinishedNotWrong(s: State, token: nat, pool: bool, tries: Attempts)
    requires Inv(s) && !SavedButDirty(s)
    ensures !SavedButDirty(Finished(s, token, pool, tries))
  {
    if Ready(s, token) {
      if Closes(s, token) {
        FinishedInv(s, token, pool, tries);
      } else {
        ToldNotWrong(s, token);
        StartWaitingNotWrong(Told(s, token), s.workers[token].session, pool);
      }
    }
  }

  lemma ToldNotWrong(s: State, token: nat)
    requires Inv(s) && !SavedButDirty(s) && Ready(s, token)
    ensures !SavedButDirty(Told(s, token))
  {
    ToldCore(s, token);
  }

  lemma StartWaitingNotWrong(s: State, session: nat, pool: bool)
    requires !SavedButDirty(s)
    ensures !SavedButDirty(StartWaiting(s, session, pool))
  {
    StartWaitingKeeps(s, session, pool);
  }

  /** The claim "saved" becomes wrong exactly when an edit is reported while an
      operation is in flight that left the claim standing. */
  lemma SavedTurnsWrongIff(s: State, e: Event)
    requires Inv(s) && Enabled(s, e) && !SavedButDirty(s)
    ensures SavedButDirty(After(s, e)) <==> e.Edit? && s.HasWorkspace() && s.busy && s.ui == Saved
  {
    match e
    case Edit =>
    case Ask(kind, detail, pool) =>
    case Runs(token, prepared, written, removable) =>
    case Finish(token, pool, tries) => FinishedNotWrong(s, token, pool, tries);
    case Open(tries) =>
    case Leave(tries) =>
    case Stop(tries) =>
  }

  /** That operation belongs to a session that was retired. */
  lemma SavedWhileBusy(s: State)
    requires Inv(s) && s.busy && s.ui == Saved && !s.shuttingDown
    ensures s.workers != map[] && forall t :: t in s.workers ==> s.welcome.active != Some(s.workers[t].session)
  {
    assert forall t :: t in s.workers && s.welcome.active == Some(s.workers[t].session) ==> Own(s, t);
  }

  // ---------------------------------------------------------------------
  // Leaving for good
  // ---------------------------------------------------------------------

  /** After a shutdown no session holds a lease, so the last retry cleans every
      session whose directory can be removed. */
  lemma StopReleasesEverything(s: State, tries: Attempts, retries: nat -> Attempts)
    requires Inv(s) && Enabled(s, Stop(tries))
    ensures var w := Stopped(s, tries).welcome;
      && w.active == None && Tracked(w)
      && (forall id :: id in w.sessions ==> w.sessions[id].operations == 0)
      && forall id :: id in w.cleanupPending ==>
        (id in Shutdown(w, tries, retries).cleanupPending <==> !w.sessions[id].cleaned && !retries(id).Succeed())
  {
    StoppedInv(s, tries);
    var after := Stopped(s, tries);
    assert forall id :: !Leased(after.workers, id);
    ShutdownTracked(after.welcome, tries, retries);
  }

  // ---------------------------------------------------------------------
  // An operation that outlives its session
  // ---------------------------------------------------------------------

  /** An operation of a retired session is in flight. */
  predicate Outlived(s: State, token: nat) {
    s.HasWorkspace() && !s.shuttingDown && s.busy && CanRun(s, token) && !Own(s, token)
  }

  /** Every workspace switch during an operation gets there, showing "saved". */
  lemma SwitchOutlives(s: State, token: nat, tries: Attempts)
    requires Inv(s) && s.busy && !s.shuttingDown && Running(s, token)
    ensures Inv(Opened(s, tries)) && Outlived(Opened(s, tries), token) && Opened(s, tries).ui == Saved
  {
    OpenedInv(s, tries);
    assert HoldsLease(s.workers, token, s.workers[token].session);
    assert Leased(s.workers, s.workers[token].session);
    var after := Opened(s, tries);
    assert HoldsLease(after.workers, token, after.workers[token].session);
    assert Leased(after.workers, after.workers[token].session);
  }

  /** Whatever the new workspace's user then asks for is accepted and dropped when
      the old operation completes: nothing is started and nothing waits. */
  lemma AcceptedThenDropped(s: State, token: nat, kind: Kind, detail: string, pool: bool, e: Event)
    requires Inv(s) && Outlived(s, token) && (kind.RollbackTo? ==> detail != "")
    requires e.Finish? && e.token == token
    ensures
      var (asked, accepted) := Enqueue(s, kind, detail, pool);
      accepted && Inv(asked) && asked.waiting != []
    ensures
      forall prepared, written, removable ::
        var ran := WorkerRuns(Enqueue(s, kind, detail, pool).0, token, prepared, written, removable);
        Inv(ran) && Dropped(After(ran, e))
  {
    EnqueueInv(s, kind, detail, pool);
    var asked := Enqueue(s, kind, detail, pool).0;
    forall prepared, written, removable
      ensures Inv(WorkerRuns(asked, token, prepared, written, removable))
      ensures Dropped(After(WorkerRuns(asked, token, prepared, written, removable), e))
    {
      RunsThenDropped(asked, token, prepared, written, removable, e);
    }
  }

  lemma RunsThenDropped(s: State, token: nat, prepared: bool, written: Outcome, removable: bool, e: Event)
    requires Inv(s) && Outlived(s, token) && e.Finish? && e.token == token
    ensures var ran := WorkerRuns(s, token, prepared, written, removable);
      Inv(ran) && Dropped(After(ran, e))
  {
    RunsInv(s, token, prepared, written, removable);
    CompletionDiscards(WorkerRuns(s, token, prepared, written, removable), e);
  }

  predicate Dropped(s: State) {
    s.waiting == [] && s.pending == None && s.workers == map[]
  }

  /** An edit reported after any switch during an operation leaves "saved" on
      display, and the old operation's completion does not correct it. */
  lemma ShownSavedWithEdits(s: State, token: nat, tries: Attempts, e: Event)
    requires Inv(s) && s.busy && !s.shuttingDown && Running(s, token) && e.Finish?
    ensures var edited := MarkDirty(Opened(s, tries));
      Inv(edited) && SavedButDirty(edited) && SavedButDirty(After(edited, e))
  {
    SwitchOutlives(s, token, tries);
    StepInv(Opened(s, tries), Edit);
    var edited := MarkDirty(Opened(s, tries));
    if Ready(edited, e.token) {
      ToldCore(edited, e.token);
    }
  }
}
