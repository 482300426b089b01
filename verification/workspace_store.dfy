// The two controllers as objects whose handlers update their fields in place.
// Every method leaves the state that the functions of WorkspaceSessions and
// WorkspaceSave describe.

module WorkspaceStore {
  import opened Common
  import opened WorkspaceSessions
  import opened WorkspaceSave

  class WelcomeController {
    var active: Option<nat>
    var cleanupPending: seq<nat>
    var sessions: map<nat, Session>

    constructor ()
      ensures View() == Welcome(None, [], map[])
    {
      active, cleanupPending, sessions := None, [], map[];
    }

    ghost function View(): Welcome
      reads this
    {
      Welcome(active, cleanupPending, sessions)
    }

    /** Whether the directory could be removed on attempt `i`. */
    static function Attempt(tries: Attempts, i: nat): bool {
      if i == 0 then tries.first else if i == 1 then tries.second else tries.third
    }

    /** Retire a session, trying three times to remove its directory; false when
        all three raised. */
    method CleanupSession(id: nat, tries: Attempts) returns (ok: bool)
      requires id in sessions
      modifies this
      ensures View() == Cleanup(old(View()), id, tries)
      ensures ok <==> old(sessions[id].cleaned || sessions[id].operations > 0) || tries.Succeed()
    {
      var i := 0;
      while i < 3
        invariant 0 <= i <= 3
        invariant i == 0 ==> View() == old(View())
        invariant i > 0 ==> old(sessions[id].operations == 0 && !sessions[id].cleaned)
        invariant i > 0 ==> active == old(active) && cleanupPending == old(cleanupPending)
        invariant i > 0 ==> sessions == old(sessions)[id := old(sessions[id]).(closeRequested := true)]
        invariant forall k :: 0 <= k < i ==> !Attempt(tries, k)
      {
        var (session, raised) := Close(sessions[id], Attempt(tries, i));
        sessions := sessions[id := session];
        if !raised {
          if session.cleaned {
            RemovePending(id);
          } else if id !in cleanupPending {
            cleanupPending := cleanupPending + [id];
          }
          assert tries.Succeed() || i == 0 by { assert !tries.Succeed() ==> !Attempt(tries, i); }
          return true;
        }
        i := i + 1;
      }
      assert !Attempt(tries, 0) && !Attempt(tries, 1) && !Attempt(tries, 2);
      if id !in cleanupPending {
        cleanupPending := cleanupPending + [id];
      }
      return false;
    }

    /** The list again without one session. */
    method RemovePending(id: nat)
      modifies `cleanupPending
      ensures cleanupPending == Without(old(cleanupPending), id)
    {
      var kept: seq<nat> := [];
      for i := 0 to |cleanupPending|
        invariant kept == Without(cleanupPending[..i], id)
      {
        assert cleanupPending[..i + 1][..i] == cleanupPending[..i];
        if cleanupPending[i] != id {
          kept := kept + [cleanupPending[i]];
        }
      }
      assert cleanupPending[..|cleanupPending|] == cleanupPending;
      cleanupPending := kept;
    }

    /** Take the active session away; its listeners are told before cleanup. */
    method Release() returns (released: Option<nat>)
      modifies `active
      ensures released == old(active) && active == None
    {
      released := active;
      active := None;
    }

    method CloseActive(tries: Attempts) returns (ok: bool)
      requires active.Some? ==> active.value in sessions
      modifies this
      ensures View() == CloseProject(old(View()), tries)
    {
      var released := Release();
      if released.None? {
        return true;
      }
      ok := CleanupSession(released.value, tries);
    }

    /** Make a newly opened session the active one. */
    method Switch(id: nat) returns (previous: Option<nat>)
      requires id !in sessions
      modifies this
      ensures previous == old(active) && active == Some(id)
      ensures sessions == old(sessions)[id := OPENED] && cleanupPending == old(cleanupPending)
    {
      previous := active;
      active, sessions := Some(id), sessions[id := OPENED];
    }

    method RetryAll(listed: seq<nat>, retries: nat -> Attempts)
      requires forall id :: id in listed ==> id in sessions
      modifies this
      ensures View() == CleanupAll(old(View()), listed, retries)
    {
      for i := 0 to |listed|
        invariant forall id :: id in old(View()).sessions ==> id in sessions
        invariant View() == CleanupAll(old(View()), listed[..i], retries)
      {
        assert listed[..i + 1][..i] == listed[..i];
        var _ := CleanupSession(listed[i], retries(listed[i]));
      }
      assert listed[..|listed|] == listed;
    }

    /** Retry every retired session once. */
    method Shutdown(tries: Attempts, retries: nat -> Attempts)
      requires Tracked(View())
      modifies this
      ensures View() == WorkspaceSessions.Shutdown(old(View()), tries, retries) && Tracked(View())
    {
      CloseTracked(View(), tries);
      ShutdownTracked(View(), tries, retries);
      var _ := CloseActive(tries);
      RetryAll(cleanupPending, retries);
    }

    /** A lease keeps the directory; a session being closed grants none. */
    method BeginLease(id: nat) returns (granted: bool)
      requires id in sessions
      modifies `sessions
      ensures granted <==> !old(sessions[id]).closeRequested
      ensures var s := old(sessions[id]);
        sessions == if granted then old(sessions)[id := s.(operations := s.operations + 1)] else old(sessions)
    {
      granted := !sessions[id].closeRequested;
      if granted {
        sessions := sessions[id := sessions[id].(operations := sessions[id].operations + 1)];
      }
    }

    /** Give a lease back. The directory is removed exactly when this was the last
        lease of a session that is to close and the removal does not raise; every
        other session, and the tracking of all of them, is as before. */
    method ReleaseLease(id: nat, removable: bool) returns (raised: bool)
      requires id in sessions && sessions[id].operations > 0
      modifies `sessions
      ensures sessions.Keys == old(sessions).Keys && forall other :: other in sessions && other != id ==> sessions[other] == old(sessions)[other]
      ensures sessions[id].operations == old(sessions)[id].operations - 1
      ensures sessions[id].closeRequested == old(sessions)[id].closeRequested
      ensures
        var last := old(sessions)[id].closeRequested && sessions[id].operations == 0 && !old(sessions)[id].cleaned;
        && (sessions[id].cleaned <==> old(sessions)[id].cleaned || (last && removable))
        && (raised <==> last && !removable)
      ensures Tracked(old(View())) ==> Tracked(View())
    {
      if Tracked(View()) {
        EndLeaseTracked(View(), id, removable);
      }
      ghost var before := sessions[id];
      sessions := sessions[id := sessions[id].(operations := sessions[id].operations - 1)];
      var cleanup := sessions[id].closeRequested && sessions[id].operations == 0;
      raised := false;
      if cleanup && !sessions[id].cleaned {
        if removable {
          sessions := sessions[id := sessions[id].(cleaned := true)];
        } else {
          raised := true;
        }
      }
      assert sessions[id] == EndLease(before, removable).0;
    }

    /** The same, as one step of the specification. */
    method EndOperation(id: nat, removable: bool) returns (raised: bool)
      requires id in sessions && sessions[id].operations > 0
      modifies `sessions
      ensures sessions == old(sessions)[id := EndLease(old(sessions[id]), removable).0]
      ensures raised == EndLease(old(sessions[id]), removable).1
    {
      ghost var before := sessions[id];
      raised := ReleaseLease(id, removable);
      ReleasedIsEnded(before, sessions[id], removable, raised);
    }
  }

  /** A session given its lease back as the contract of ReleaseLease says. */
  lemma ReleasedIsEnded(before: Session, after: Session, removable: bool, raised: bool)
    requires before.operations > 0 && after.operations == before.operations - 1 && after.closeRequested == before.closeRequested
    requires var last := before.closeRequested && after.operations == 0 && !before.cleaned;
      (after.cleaned <==> before.cleaned || (last && removable)) && (raised <==> last && !removable)
    ensures (after, raised) == EndLease(before, removable)
  {
  }

  class WorkspaceSaveController {
    const welcome: WelcomeController
    var busy: bool
    var ui: Ui
    var generation: nat
    var savedGeneration: nat
    var pending: Option<Request>
    var workers: map<nat, Worker>
    var nextToken: nat
    var nextSession: nat
    var shuttingDown: bool
    // History that no decision reads.
    var edits: nat
    var confirmed: nat
    var waiting: seq<Request>

    constructor ()
      ensures Valid() && fresh(welcome) && View() == START
    {
      welcome := new WelcomeController();
      busy, ui, generation, savedGeneration, pending := false, NoWorkspace, 0, 0, None;
      workers, nextToken, nextSession, shuttingDown := map[], 0, 0, false;
      edits, confirmed, waiting := 0, 0, [];
      new;
      StartsValid();
    }

    ghost function View(): State
      reads this, welcome
    {
      State(busy, ui, generation, savedGeneration, pending, workers, nextToken, shuttingDown,
            welcome.View(), nextSession, edits, confirmed, waiting)
    }

    ghost predicate Valid()
      reads this, welcome
    {
      Inv(View())
    }

    method EditReported()
      requires Valid()
      modifies this
      ensures View() == MarkDirty(old(View())) && Valid()
    {
      StepInv(View(), Edit);
      if welcome.active.None? {
        return;
      }
      generation := generation + 1;
      edits := edits + 1;
      if !busy {
        ui := Unsaved;
      }
    }

    method Ask(kind: Kind, detail: string, pool: bool) returns (accepted: bool)
      requires Valid()
      modifies this, welcome
      ensures (View(), accepted) == Enqueue(old(View()), kind, detail, pool) && Valid()
    {
      EnqueueInv(View(), kind, detail, pool);
      if kind.RollbackTo? && detail == "" {
        return false;
      }
      if shuttingDown || welcome.active.None? {
        return false;
      }
      var request := Request(kind, detail, generation);
      if busy {
        Wait(request);
        return true;
      }
      accepted := Begin(request, pool);
    }

    method Wait(request: Request)
      modifies this
      ensures View() == Queue(old(View()), request)
    {
      pending := Merge(pending, request);
      waiting := waiting + [request];
    }

    /** Start an operation: take a lease, then hand the worker to the pool. */
    method Begin(request: Request, pool: bool) returns (started: bool)
      requires CanClose(View()) && nextToken !in workers
      modifies this, welcome
      ensures (View(), started) == Start(old(View()), request, pool)
    {
      if welcome.active.None? || welcome.sessions[welcome.active.value].closeRequested {
        return false;
      }
      var id := welcome.active.value;
      ghost var before, leases := workers, welcome.sessions;
      var granted := welcome.BeginLease(id);
      var token := nextToken;
      nextToken := nextToken + 1;
      workers := workers[token := Worker(id, request.(generation := generation), edits, false, None)];
      busy, ui := true, Saving;
      if !pool {
        var _ := welcome.EndOperation(id, true);
        workers, busy := workers - {token}, false;
        assert workers == before && welcome.sessions == leases;
        return false;
      }
      return true;
    }

    /** The background run: a close prepares first, then the package is written,
        and the lease ends whatever happened. */
    method RunWorker(token: nat, prepared: bool, written: Outcome, removable: bool)
      requires Valid() && CanRun(View(), token)
      modifies `workers, welcome
      ensures View() == WorkerRuns(old(View()), token, prepared, written, removable) && Valid()
    {
      RunsInv(View(), token, prepared, written, removable);
      var worker := workers[token];
      var outcome := written;
      if worker.request.kind.CloseWorkspace? && !prepared {
        outcome := Failed(false);
      }
      var raised := welcome.EndOperation(worker.session, removable);
      if raised && outcome.Committed? {
        outcome := Failed(false);
      }
      workers := workers[token := worker.(prepared := prepared, outcome := Some(outcome))];
    }

    /** The completion of a worker, delivered on the GUI thread. */
    method OperationFinished(token: nat, pool: bool, tries: Attempts)
      requires Valid() && Ready(View(), token)
      modifies this, welcome
      ensures View() == Finished(old(View()), token, pool, tries) && Valid()
    {
      FinishedInv(View(), token, pool, tries);
      ToldCore(View(), token);
      var worker := workers[token];
      var closing := welcome.active == Some(worker.session) && worker.outcome.value.Committed? && worker.request.kind.CloseWorkspace?;
      LookAtResult(token);
      if closing {
        EmptyQueue();
        Leave(tries);
      } else {
        StartNext(worker.session, pool);
      }
    }

    method LookAtResult(token: nat)
      requires Ready(View(), token)
      modifies this
      ensures View() == Told(old(View()), token)
    {
      var worker := workers[token];
      workers := workers - {token};
      busy := false;
      if welcome.active == Some(worker.session) {
        match worker.outcome.value
        case Failed(conflict) =>
          ui := if conflict then SaveConflict else SaveFailed;
        case Committed(changed, _) =>
          ConfirmResult(worker, changed);
      }
    }

    /** Take what is waiting and start it, if it is for the finished session. */
    method StartNext(session: nat, pool: bool)
      requires CanClose(View()) && nextToken !in workers
      modifies this, welcome
      ensures View() == StartWaiting(old(View()), session, pool)
    {
      var next := pending;
      EmptyQueue();
      if next.Some? && welcome.active == Some(session) {
        var _ := Begin(next.value, pool);
      }
    }

    method EmptyQueue()
      modifies `pending, `waiting
      ensures View() == DropQueue(old(View()))
    {
      pending, waiting := None, [];
    }

    /** A committed package confirms its generation; one that changed while it
        was written leaves edits to save and asks for an automatic save. */
    method ConfirmResult(worker: Worker, changed: bool)
      modifies this
      ensures View() == Confirm(old(View()), worker, changed)
    {
      savedGeneration := Larger(savedGeneration, worker.request.generation);
      confirmed := worker.edits;
      if changed {
        generation := Larger(generation, worker.request.generation + 1);
        Wait(Request(AutoSave, "", generation));
      }
      ui := if generation > savedGeneration then Unsaved else Saved;
    }

    /** The listener of a workspace change. */
    method Reset()
      modifies this
      ensures View() == WorkspaceChanged(old(View()))
    {
      generation, savedGeneration, edits, confirmed := 0, 0, 0, 0;
      EmptyQueue();
      ui := if welcome.active.None? then NoWorkspace else Saved;
    }

    /** Close the active workspace: listeners first, then the directory. */
    method Leave(tries: Attempts)
      requires CanClose(View())
      modifies this, welcome
      ensures View() == CloseActive(old(View()), tries)
    {
      var released := welcome.Release();
      if released.Some? {
        Reset();
        var _ := welcome.CleanupSession(released.value, tries);
      }
    }

    /** Activate a newly opened workspace and retire the previous one. */
    method OpenWorkspace(tries: Attempts)
      requires Valid()
      modifies this, welcome
      ensures View() == Opened(old(View()), tries) && Valid()
    {
      OpenedInv(View(), tries);
      var previous := welcome.Switch(nextSession);
      nextSession := nextSession + 1;
      Reset();
      if previous.Some? {
        var _ := welcome.CleanupSession(previous.value, tries);
      }
    }

    /** Called once the running worker, if any, has ended. */
    method Shutdown(tries: Attempts)
      requires Valid() && Enabled(View(), Stop(tries))
      modifies this, welcome
      ensures View() == Stopped(old(View()), tries) && Valid()
    {
      StoppedInv(View(), tries);
      shuttingDown := true;
      EmptyQueue();
      workers := map[];
      Leave(tries);
    }
  }
}
