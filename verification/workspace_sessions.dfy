// Workspace sessions: operation leases, closing, and retiring sessions whose
// temporary directory cannot be removed at once.

module WorkspaceSessions {
  import opened Common

  /** `operations` counts the leases that keep the directory alive. */
  datatype Session = Session(operations: nat, closeRequested: bool, cleaned: bool)

  const OPENED := Session(0, false, false)

  /** Sessions by identity, the active one, and those retired but not yet cleaned. */
  datatype Welcome = Welcome(active: Option<nat>, cleanupPending: seq<nat>, sessions: map<nat, Session>)

  /** Close once; the flag says whether removing the directory raised. */
  function Close(s: Session, removable: bool): (Session, bool) {
    var closing := s.(closeRequested := true);
    if s.operations == 0 && !s.cleaned then (closing.(cleaned := removable), !removable) else (closing, false)
  }

  /** End of a lease; a session closed meanwhile is cleaned by its last lease. */
  function EndLease(s: Session, removable: bool): (Session, bool)
    requires s.operations > 0
  {
    var ended := s.(operations := s.operations - 1);
    if ended.closeRequested && ended.operations == 0 && !ended.cleaned
    then (ended.(cleaned := removable), !removable) else (ended, false)
  }

  function Without(list: seq<nat>, id: nat): seq<nat> {
    if list == [] then []
    else
      var rest := Without(list[..|list| - 1], id);
      if list[|list| - 1] == id then rest else rest + [list[|list| - 1]]
  }

  lemma {:induction false} WithoutExactly(list: seq<nat>, id: nat)
    ensures forall x :: x in Without(list, id) <==> x in list && x != id
    ensures NoRepeats(list) ==> NoRepeats(Without(list, id))
  {
    if list != [] {
      var n := |list| - 1;
      WithoutExactly(list[..n], id);
      assert list == list[..n] + [list[n]];
      assert NoRepeats(list) ==> list[n] !in list[..n];
    }
  }

  function With(list: seq<nat>, id: nat): seq<nat> {
    if id in list then list else list + [id]
  }

  /** How removing the directory goes on up to three attempts. */
  datatype Attempts = Attempts(first: bool, second: bool, third: bool) {
    predicate Succeed() {
      first || second || third
    }
  }

  predicate CleanedBy(s: Session, tries: Attempts) {
    s.cleaned || (s.operations == 0 && tries.Succeed())
  }

  /** Retire a session: cleaned sessions leave the list, others are in it. */
  function Cleanup(w: Welcome, id: nat, tries: Attempts): Welcome
    requires id in w.sessions
  {
    var s := w.sessions[id];
    var cleaned := CleanedBy(s, tries);
    w.(sessions := w.sessions[id := s.(closeRequested := true, cleaned := cleaned)],
       cleanupPending := if cleaned then Without(w.cleanupPending, id) else With(w.cleanupPending, id))
  }

  function CloseProject(w: Welcome, tries: Attempts): Welcome
    requires w.active.Some? ==> w.active.value in w.sessions
  {
    if w.active.None? then w else Cleanup(w.(active := None), w.active.value, tries)
  }

  /** Activate a newly opened session, then retire the previous one. */
  function Activate(w: Welcome, id: nat, tries: Attempts): Welcome
    requires w.active.Some? ==> w.active.value in w.sessions
  {
    var switched := w.(active := Some(id), sessions := w.sessions[id := OPENED]);
    if w.active.None? || w.active.value == id then switched else Cleanup(switched, w.active.value, tries)
  }

  function CleanupAll(w: Welcome, ids: seq<nat>, tries: nat -> Attempts): Welcome
    requires forall id :: id in ids ==> id in w.sessions
    ensures CleanupAll(w, ids, tries).sessions.Keys == w.sessions.Keys
  {
    if ids == [] then w
    else
      var id := ids[|ids| - 1];
      Cleanup(CleanupAll(w, ids[..|ids| - 1], tries), id, tries(id))
  }

  function Shutdown(w: Welcome, tries: Attempts, retries: nat -> Attempts): Welcome
    requires Tracked(w)
  {
    var closed := CloseProject(w, tries);
    CloseTracked(w, tries);
    CleanupAll(closed, closed.cleanupPending, retries)
  }

  // ---------------------------------------------------------------------
  // No session is lost
  // ---------------------------------------------------------------------

  /** Every session is active, or cleaned, or waiting once to be cleaned. */
  ghost predicate Tracked(w: Welcome) {
    && (forall id :: id in w.sessions ==> w.active == Some(id) || w.sessions[id].cleaned || id in w.cleanupPending)
    && NoRepeats(w.cleanupPending)
    && (forall id :: id in w.cleanupPending ==> id in w.sessions && w.active != Some(id) && w.sessions[id].closeRequested)
    && (w.active.Some? ==> w.active.value in w.sessions)
    && (w.active.Some? ==> !w.sessions[w.active.value].closeRequested && !w.sessions[w.active.value].cleaned)
    && (forall id :: id in w.sessions && w.sessions[id].cleaned ==> w.sessions[id].operations == 0)
  }

  lemma WithoutListed(list: seq<nat>, id: nat)
    requires NoRepeats(With(list, id))
    ensures NoRepeats(Without(list, id)) && forall x :: x in Without(list, id) <==> x in With(list, id) && x != id
  {
    assert forall i :: 0 <= i < |list| ==> list[i] == With(list, id)[i];
    assert NoRepeats(list);
    WithoutExactly(list, id);
  }

  /** A session asked to close is listed, or cleaned and not listed. */
  lemma CleanupTracked(w: Welcome, id: nat, tries: Attempts)
    requires id in w.sessions && w.active != Some(id)
    requires Tracked(w.(cleanupPending := With(w.cleanupPending, id),
                        sessions := w.sessions[id := w.sessions[id].(closeRequested := true)]))
    ensures Tracked(Cleanup(w, id, tries))
  {
    var closing := w.(cleanupPending := With(w.cleanupPending, id),
                      sessions := w.sessions[id := w.sessions[id].(closeRequested := true)]);
    WithoutListed(w.cleanupPending, id);
    CleanedTracked(closing, Cleanup(w, id, tries), id);
  }

  lemma CleanedTracked(closing: Welcome, after: Welcome, id: nat)
    requires Tracked(closing) && id in closing.cleanupPending && id in closing.sessions && id in after.sessions
    requires after.active == closing.active && after.sessions == closing.sessions[id := after.sessions[id]]
    requires after.sessions[id].closeRequested && after.sessions[id].operations == closing.sessions[id].operations
    requires after.sessions[id].cleaned ==> after.sessions[id].operations == 0
    requires NoRepeats(after.cleanupPending)
    requires forall x :: x in after.cleanupPending <==> x in closing.cleanupPending && (x == id ==> !after.sessions[id].cleaned)
    ensures Tracked(after)
  {
  }

  lemma CloseTracked(w: Welcome, tries: Attempts)
    requires Tracked(w)
    ensures Tracked(CloseProject(w, tries))
    ensures forall id :: id in CloseProject(w, tries).cleanupPending ==> id in CloseProject(w, tries).sessions
  {
    if w.active.Some? {
      CleanupTracked(w.(active := None), w.active.value, tries);
    }
  }

  lemma ActivateTracked(w: Welcome, id: nat, tries: Attempts)
    requires Tracked(w) && id !in w.sessions
    ensures Tracked(Activate(w, id, tries))
  {
    if w.active.Some? {
      CleanupTracked(w.(active := Some(id), sessions := w.sessions[id := OPENED]), w.active.value, tries);
    }
  }

  /** Retrying one listed session touches no other. */
  lemma RetryTracked(w: Welcome, id: nat, tries: Attempts)
    requires Tracked(w) && id in w.cleanupPending
    ensures var after := Cleanup(w, id, tries);
      && Tracked(after) && after.active == w.active
      && after.sessions == w.sessions[id := w.sessions[id].(cleaned := CleanedBy(w.sessions[id], tries))]
      && (forall x :: x in after.cleanupPending <==> x in w.cleanupPending && (x == id ==> !after.sessions[id].cleaned))
  {
    assert w.sessions[id := w.sessions[id].(closeRequested := true)] == w.sessions;
    CleanupTracked(w, id, tries);
    WithoutExactly(w.cleanupPending, id);
  }

  /** The listed sessions `ids` were retried; all others are as they were. */
  ghost predicate Retried(w: Welcome, after: Welcome, ids: seq<nat>, retries: nat -> Attempts) {
    && after.active == w.active && after.sessions.Keys == w.sessions.Keys
    && (forall id :: id in w.sessions && id !in ids ==> after.sessions[id] == w.sessions[id])
    && (forall id :: id in w.sessions && id in ids ==>
      after.sessions[id] == w.sessions[id].(cleaned := CleanedBy(w.sessions[id], retries(id))))
    && (forall id :: id in after.cleanupPending ==> id in w.cleanupPending)
    && (forall id :: id in w.cleanupPending && id in w.sessions ==>
      (id in after.cleanupPending <==> (id in ids ==> !CleanedBy(w.sessions[id], retries(id)))))
  }

  lemma {:induction false} CleanupAllTracked(w: Welcome, ids: seq<nat>, retries: nat -> Attempts)
    requires Tracked(w) && NoRepeats(ids) && forall id :: id in ids ==> id in w.cleanupPending
    ensures Tracked(CleanupAll(w, ids, retries)) && Retried(w, CleanupAll(w, ids, retries), ids, retries)
  {
    if ids != [] {
      var n := |ids| - 1;
      assert ids == ids[..n] + [ids[n]];
      assert NoRepeats(ids[..n]) && ids[n] !in ids[..n] && ids[n] in w.cleanupPending;
      CleanupAllTracked(w, ids[..n], retries);
      RetryOneMore(w, CleanupAll(w, ids[..n], retries), ids[..n], ids[n], retries);
    }
  }

  lemma RetryOneMore(w: Welcome, before: Welcome, ids: seq<nat>, id: nat, retries: nat -> Attempts)
    requires Tracked(w) && Tracked(before) && Retried(w, before, ids, retries) && id !in ids && id in w.cleanupPending
    ensures Tracked(Cleanup(before, id, retries(id))) && Retried(w, Cleanup(before, id, retries(id)), ids + [id], retries)
  {
    RetryTracked(before, id, retries(id));
  }

  /** Shutdown leaves no active session, and in the list exactly the retired
      sessions that could not be cleaned: a worker still holds a lease, or every
      attempt to remove the directory failed. */
  lemma ShutdownTracked(w: Welcome, tries: Attempts, retries: nat -> Attempts)
    requires Tracked(w)
    ensures var closed, after := CloseProject(w, tries), Shutdown(w, tries, retries);
      && Tracked(after) && after.active == None
      && forall id :: id in closed.sessions ==>
        (id in after.cleanupPending <==> id in closed.cleanupPending && !CleanedBy(closed.sessions[id], retries(id)))
  {
    CloseTracked(w, tries);
    var closed := CloseProject(w, tries);
    CleanupAllTracked(closed, closed.cleanupPending, retries);
  }

  lemma EndLeaseTracked(w: Welcome, id: nat, removable: bool)
    requires Tracked(w) && id in w.sessions && w.sessions[id].operations > 0
    ensures Tracked(w.(sessions := w.sessions[id := EndLease(w.sessions[id], removable).0]))
  {
  }

  lemma BeginLeaseTracked(w: Welcome, id: nat)
    requires Tracked(w) && w.active == Some(id)
    ensures Tracked(w.(sessions := w.sessions[id := w.sessions[id].(operations := w.sessions[id].operations + 1)]))
  {
  }
}
