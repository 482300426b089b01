// Interleavings of FHRP edits, pushes and deferred verification.

module FhrpRuns {
  import opened Common
  import opened FhrpTables

  // ---------------------------------------------------------------------
  // Verification against the device
  // ---------------------------------------------------------------------

  /** One line of policy in the running configuration of an interface. */
  datatype Line = Activation(protocol: Protocol, number: nat, vip: string) | Policy(protocol: Protocol, number: nat, text: string)

  /** What the show commands of one verification return. */
  datatype Shown = Shown(running: map<Endpoint, set<Line>>, operational: set<(string, Protocol, string)>)

  function Running(shown: Shown, at: Endpoint): set<Line> {
    if at in shown.running then shown.running[at] else {}
  }

  /** Setup needs the activation line and an operational gateway; removal needs
      the whole group policy gone from the interface. */
  predicate Verified(task: Task, shown: Shown) {
    match task.action
    case Setup =>
      && Activation(task.key.protocol, task.key.number, task.vip) in Running(shown, task.key.at)
      && (task.key.at.host, task.key.protocol, task.vip) in shown.operational
    case Remove =>
      forall line :: line in Running(shown, task.key.at) ==> !(line.protocol == task.key.protocol && line.number == task.key.number)
  }

  // ---------------------------------------------------------------------
  // Runs
  // ---------------------------------------------------------------------

  datatype Event =
    | Save(p: GroupInput)
    | Mark(group: nat)
    | Cancel(group: nat)
    | Collect(host: string)
    | Verify(task: Task, shown: Shown)

  /** `contexts` are all tasks ever sent, any of which may still be verified;
      `confirmed` are the members whose own setup was once verified. */
  datatype World = World(db: Db, contexts: set<Task>, confirmed: set<nat>)

  const START := World(EMPTY, {}, {})

  ghost function After(w: World, inventory: Inventory, e: Event): World {
    match e
    case Save(p) => if SaveGroup(w.db, inventory, p).Some? then w.(db := SaveGroup(w.db, inventory, p).value) else w
    case Mark(g) => w.(db := MarkGroup(w.db, g))
    case Cancel(g) => w.(db := CancelGroup(w.db, g))
    case Collect(host) => w.(contexts := w.contexts + set m | m in w.db.members && m in PendingOn(w.db, host) :: TaskOf(w.db, m))
    case Verify(task, shown) =>
      if task in w.contexts && Verified(task, shown) then
        w.(db := Succeed(w.db, task), confirmed := if task.action.Setup? then w.confirmed + {task.memberId} else w.confirmed)
      else w
  }

  ghost function RunEvents(w: World, inventory: Inventory, events: seq<Event>): World {
    if events == [] then w
    else After(RunEvents(w, inventory, events[..|events| - 1]), inventory, events[|events| - 1])
  }

  predicate OnceSynchronized(member: Member) {
    member.status.Synchronized? || member.restore == Some(Synchronized)
  }

  ghost predicate Inv(w: World) {
    && Sound(w.db)
    && (forall task :: task in w.contexts ==> Current(w.db, task))
    && (forall m :: m in w.db.members && OnceSynchronized(w.db.members[m]) ==> m in w.confirmed)
  }

  /** What a save can do to rows: old ones stay or go with a draft of the same
      group, new ones are fresh drafts. */
  ghost predicate SaveFrame(db: Db, after: Db, group: Group) {
    && db.nextGroup <= after.nextGroup && db.nextMember <= after.nextMember
    && (forall m :: m in after.members ==>
      if m in db.members then after.members[m] == db.members[m] && (after.members[m].fhrpId in after.groups)
      else m >= db.nextMember && after.members[m].fhrpId >= db.nextGroup && !OnceSynchronized(after.members[m]))
    && (forall m :: m in db.members && m !in after.members ==>
      db.members[m].status.PendingApply? && db.members[m].fhrpId in db.groups && db.groups[db.members[m].fhrpId] == group)
    && (forall g :: g in db.groups && g in after.groups ==> after.groups[g] == db.groups[g])
    && (forall g :: g in after.groups && g !in db.groups ==> g >= db.nextGroup)
    && (forall t :: t in after.tracks ==>
      if t in db.tracks then after.tracks[t] == db.tracks[t] else t >= db.nextTrack && after.tracks[t].memberId >= db.nextMember)
    && (forall t :: t in db.tracks && db.tracks[t].memberId in after.members ==> t in after.tracks)
  }

  lemma SaveFrames(db: Db, inventory: Inventory, p: GroupInput)
    requires Sound(db) && SaveGroup(db, inventory, p).Some?
    ensures SaveFrame(db, SaveGroup(db, inventory, p).value, p.group)
  {
    if g :| g in db.groups && db.groups[g] == p.group {
      assert forall h :: h in db.groups && db.groups[h] == p.group ==> h == g;
      InsertFrames(DropGroup(db, g), p);
      DropFrames(db, p, g, InsertGroup(DropGroup(db, g), p));
    } else {
      InsertFrames(db, p);
    }
  }

  lemma InsertFrames(db: Db, p: GroupInput)
    requires Linked(db)
    ensures SaveFrame(db, InsertGroup(db, p), p.group)
  {
    InsertMembersEffect(WithGroup(db, p.group), db.nextGroup, p.members);
  }

  lemma DropFrames(db: Db, p: GroupInput, g: nat, after: Db)
    requires Linked(db) && g in db.groups && db.groups[g] == p.group && !Protected(db, g)
    requires SaveFrame(DropGroup(db, g), after, p.group) && forall m :: m in DropGroup(db, g).members ==> m in after.members
    ensures SaveFrame(db, after, p.group)
  {
  }

  lemma SaveStepInv(w: World, inventory: Inventory, p: GroupInput)
    requires Inv(w) && SaveGroup(w.db, inventory, p).Some?
    ensures Inv(w.(db := SaveGroup(w.db, inventory, p).value))
  {
    SaveSound(w.db, inventory, p);
    SaveFrames(w.db, inventory, p);
    var after := SaveGroup(w.db, inventory, p).value;
    forall task | task in w.contexts
      ensures Current(after, task)
    {
      assert Current(w.db, task);
      ContextKept(w.db, after, p.group, task);
    }
  }

  /** Ids are never reused, so a context stays current or loses its member. */
  lemma ContextKept(db: Db, after: Db, group: Group, task: Task)
    requires Linked(db) && Current(db, task) && SaveFrame(db, after, group)
    ensures Current(after, task)
  {
  }

  lemma VerifyStepInv(w: World, task: Task)
    requires Inv(w) && task in w.contexts
    ensures Inv(w.(db := Succeed(w.db, task), confirmed := if task.action.Setup? then w.confirmed + {task.memberId} else w.confirmed))
  {
    if task.action.Setup? {
      SetupSound(w.db, task.memberId);
    } else {
      RemoveSound(w.db, task);
    }
  }

  lemma StepInv(w: World, inventory: Inventory, e: Event)
    requires Inv(w)
    ensures Inv(After(w, inventory, e))
  {
    match e
    case Save(p) =>
      if SaveGroup(w.db, inventory, p).Some? { SaveStepInv(w, inventory, p); }
    case Mark(g) =>
      MarkSound(w.db, g);
      MarkStepInv(w, MarkGroup(w.db, g));
    case Cancel(g) =>
      CancelSound(w.db, g);
      MarkStepInv(w, CancelGroup(w.db, g));
    case Collect(host) => CollectStepInv(w, inventory, host);
    case Verify(task, shown) =>
      if task in w.contexts && Verified(task, shown) { VerifyStepInv(w, task); }
  }

  lemma CollectStepInv(w: World, inventory: Inventory, host: string)
    requires Inv(w)
    ensures Inv(After(w, inventory, Collect(host)))
  {
    assert forall m :: m in PendingOn(w.db, host) ==> Current(w.db, TaskOf(w.db, m));
  }

  /** Marking and cancelling change neither keys nor what was once synchronized. */
  lemma MarkStepInv(w: World, db: Db)
    requires Inv(w) && Sound(db) && SameShape(w.db, db)
    requires forall m :: m in db.members && OnceSynchronized(db.members[m]) ==> OnceSynchronized(w.db.members[m])
    ensures Inv(w.(db := db))
  {
    forall task | task in w.contexts
      ensures Current(db, task)
    {
      assert Current(w.db, task);
    }
  }

  /** In every interleaving the tables stay sound (each gateway on a host and
      each group number on an interface is managed once, no group is empty), and
      a member is synchronized, or will be again after a cancel, only if its own
      setup was verified. */
  lemma {:induction false} EveryRunInv(inventory: Inventory, events: seq<Event>)
    ensures Inv(RunEvents(START, inventory, events))
  {
    if events != [] {
      EveryRunInv(inventory, events[..|events| - 1]);
      StepInv(RunEvents(START, inventory, events[..|events| - 1]), inventory, events[|events| - 1]);
    }
  }

  /** A member disappears only by a verified removal of that member, or by a new
      save of the same group while nothing of it ever left the draft state. */
  lemma MemberLeavesOnlyIf(w: World, inventory: Inventory, e: Event, m: nat)
    requires Inv(w) && m in w.db.members && m !in After(w, inventory, e).db.members
    ensures (e.Verify? && e.task.action.Remove? && e.task.memberId == m && Verified(e.task, e.shown))
         || (e.Save? && w.db.members[m].status.PendingApply? && GroupOf(w.db, m) == e.p.group)
  {
    if e.Save? && SaveGroup(w.db, inventory, e.p).Some? {
      SaveFrames(w.db, inventory, e.p);
    }
  }

  /** It goes by a removal only when no policy of its group is left on its interface. */
  lemma RemovedOnlyIf(w: World, inventory: Inventory, task: Task, shown: Shown, m: nat)
    requires Inv(w) && m in w.db.members && m !in After(w, inventory, Verify(task, shown)).db.members
    ensures forall line :: line in Running(shown, w.db.members[m].at) ==>
      line.protocol != GroupOf(w.db, m).protocol || line.number != GroupOf(w.db, m).number
  {
    MemberLeavesOnlyIf(w, inventory, Verify(task, shown), m);
    assert Current(w.db, task);
  }

  /** A member becomes synchronized only by a cancel that restores it, or when its
      group's address is active on its interface and the gateway operates. */
  lemma SynchronizedOnlyIf(w: World, inventory: Inventory, e: Event, m: nat)
    requires Inv(w) && m in w.db.members && !w.db.members[m].status.Synchronized?
    requires m in After(w, inventory, e).db.members && After(w, inventory, e).db.members[m].status.Synchronized?
    ensures (e.Cancel? && e.group == w.db.members[m].fhrpId && w.db.members[m].restore == Some(Synchronized))
         || (e.Verify? && var row, group := w.db.members[m], GroupOf(w.db, m);
              && Activation(group.protocol, group.number, group.vip) in Running(e.shown, row.at)
              && (row.at.host, group.protocol, group.vip) in e.shown.operational)
  {
    if e.Save? && SaveGroup(w.db, inventory, e.p).Some? {
      SaveFrames(w.db, inventory, e.p);
    }
    if e.Verify? && e.task in w.contexts {
      assert Current(w.db, e.task);
    }
  }

  /** Only the row and the tracks of member `m` differ, and members only go. */
  ghost predicate OnlyMember(db: Db, after: Db, m: nat) {
    && (forall n :: n in db.members && n != m ==> n in after.members && after.members[n] == db.members[n])
    && (forall t :: t in db.tracks && db.tracks[t].memberId != m ==> t in after.tracks && after.tracks[t] == db.tracks[t])
    && (forall n :: n in after.members ==> n in db.members)
  }

  lemma SucceedTouches(db: Db, task: Task)
    ensures OnlyMember(db, Succeed(db, task), task.memberId)
    ensures forall g :: g in Succeed(db, task).groups ==> g in db.groups
    ensures forall g :: g in db.groups && g != task.fhrpId ==> g in Succeed(db, task).groups
  {
  }

  lemma StaleIgnored(db: Db, task: Task)
    requires Sound(db) && task.memberId !in db.members
    ensures Succeed(db, task) == db
  {
    if task.action.Remove? {
      StaleRemovalIgnored(db, task);
    } else {
      assert SetupMember(db, task.memberId).tracks == db.tracks;
    }
  }

  lemma GroupsWithMembers(db: Db, task: Task)
    requires Sound(db) && Current(db, task) && NoEmptyGroup(Succeed(db, task))
    ensures forall g :: g in Succeed(db, task).groups <==> g in db.groups && HasMember(Succeed(db, task), g)
  {
    var after := Succeed(db, task);
    SucceedTouches(db, task);
    forall g
      ensures g in after.groups <==> g in db.groups && HasMember(after, g)
    {
      assert g in after.groups ==> HasMember(after, g);
    }
  }

  /** Verifying a context, however late, alters no other member, its tracks or
      its group; and a group goes only with its last member. */
  lemma VerifyTouchesOwnMember(w: World, inventory: Inventory, task: Task, shown: Shown)
    requires Inv(w) && task in w.contexts
    ensures var after := After(w, inventory, Verify(task, shown)).db;
      && OnlyMember(w.db, after, task.memberId)
      && (forall g :: g in after.groups <==> g in w.db.groups && HasMember(after, g))
      && (task.memberId !in w.db.members ==> after == w.db)
  {
    if Verified(task, shown) {
      VerifyStepInv(w, task);
      SucceedTouches(w.db, task);
      GroupsWithMembers(w.db, task);
      if task.memberId !in w.db.members {
        StaleIgnored(w.db, task);
      }
    } else {
      assert forall g :: g in w.db.groups ==> HasMember(w.db, g);
    }
  }

  // ---------------------------------------------------------------------
  // Cancelling a deletion
  // ---------------------------------------------------------------------

  /** Nothing of the group awaits deletion. */
  ghost predicate Unmarked(db: Db, g: nat) {
    && (forall m :: InGroup(db, m, g) ==> !db.members[m].status.PendingDelete?)
    && (forall t :: t in db.tracks && InGroup(db, db.tracks[t].memberId, g) ==> !db.tracks[t].status.PendingDelete?)
  }

  /** `later` holds the group marked, with the states of `origin` recorded, for
      those members that were not removed meanwhile. */
  ghost predicate MarkOf(origin: Db, later: Db, g: nat) {
    && (forall m :: InGroup(later, m, g) ==> InGroup(origin, m, g))
    && (forall m :: InGroup(later, m, g) ==>
      later.members[m] == origin.members[m].(status := PendingDelete, restore := Some(origin.members[m].status)))
    && (forall t :: t in later.tracks && InGroup(later, later.tracks[t].memberId, g) ==> t in origin.tracks)
    && (forall t :: t in later.tracks && InGroup(later, later.tracks[t].memberId, g) ==>
      later.tracks[t] == origin.tracks[t].(status := PendingDelete, restore := Some(origin.tracks[t].status)))
    && (forall t :: t in origin.tracks && InGroup(later, origin.tracks[t].memberId, g) ==>
      t in later.tracks && later.tracks[t].memberId == origin.tracks[t].memberId)
  }

  /** The group as it was, for the members that are still there. */
  ghost predicate RestoredTo(origin: Db, after: Db, g: nat) {
    && (forall m :: InGroup(after, m, g) ==> InGroup(origin, m, g) && after.members[m] == origin.members[m])
    && (forall t :: t in after.tracks && InGroup(after, after.tracks[t].memberId, g) ==>
      t in origin.tracks && after.tracks[t] == origin.tracks[t])
    && (forall t :: t in origin.tracks && InGroup(after, origin.tracks[t].memberId, g) ==>
      t in after.tracks && after.tracks[t] == origin.tracks[t])
  }

  lemma MarkRecords(db: Db, g: nat)
    requires Sound(db) && Unmarked(db, g)
    ensures MarkOf(db, MarkGroup(db, g), g)
  {
  }

  lemma MarkAgain(origin: Db, later: Db, g: nat)
    requires MarkOf(origin, later, g)
    ensures MarkGroup(later, g) == later
  {
    assert MarkGroup(later, g).members == later.members;
    assert MarkGroup(later, g).tracks == later.tracks;
  }

  lemma CancelRestores(origin: Db, later: Db, g: nat)
    requires Sound(origin) && Unmarked(origin, g) && MarkOf(origin, later, g)
    ensures RestoredTo(origin, CancelGroup(later, g), g)
  {
    var after := CancelGroup(later, g);
    forall m | InGroup(after, m, g)
      ensures InGroup(origin, m, g) && after.members[m] == origin.members[m]
    {
      assert InGroup(later, m, g);
    }
    forall t | t in after.tracks && InGroup(after, after.tracks[t].memberId, g)
      ensures t in origin.tracks && after.tracks[t] == origin.tracks[t]
    {
      assert t in later.tracks && InGroup(later, later.tracks[t].memberId, g);
    }
    forall t | t in origin.tracks && InGroup(after, origin.tracks[t].memberId, g)
      ensures t in after.tracks && after.tracks[t] == origin.tracks[t]
    {
      assert InGroup(later, origin.tracks[t].memberId, g);
    }
  }

  function MarkTimes(db: Db, g: nat, n: nat): Db {
    if n == 0 then db else MarkGroup(MarkTimes(db, g, n - 1), g)
  }

  /** Any positive number of marks is undone exactly by one cancel. */
  lemma {:induction false} CancelUndoesMarks(db: Db, g: nat, n: nat)
    requires Sound(db) && Unmarked(db, g) && n > 0
    ensures CancelGroup(MarkTimes(db, g, n), g) == db
  {
    if n == 1 {
      assert MarkTimes(db, g, 1) == MarkGroup(MarkTimes(db, g, 0), g);
      CancelUndoesMark(db, g);
    } else {
      MarkTimesSame(db, g, n - 1);
      CancelUndoesMarks(db, g, n - 1);
    }
  }

  lemma CancelUndoesMark(db: Db, g: nat)
    requires Sound(db) && Unmarked(db, g)
    ensures CancelGroup(MarkGroup(db, g), g) == db
  {
    CancelledMembers(db, g);
    CancelledTracks(db, g);
  }

  lemma CancelledMembers(db: Db, g: nat)
    requires Sound(db) && Unmarked(db, g)
    ensures CancelGroup(MarkGroup(db, g), g).members == db.members
  {
    var after := CancelGroup(MarkGroup(db, g), g);
    forall m | m in db.members
      ensures after.members[m] == db.members[m]
    {
      assert InGroup(db, m, g) ==> MarkedIn(MarkGroup(db, g), m, g);
    }
  }

  lemma CancelledTracks(db: Db, g: nat)
    requires Sound(db) && Unmarked(db, g)
    ensures CancelGroup(MarkGroup(db, g), g).tracks == db.tracks
  {
    forall t | t in db.tracks
      ensures CancelGroup(MarkGroup(db, g), g).tracks[t] == db.tracks[t]
    {
      CancelledTrack(db, g, t);
    }
  }

  lemma CancelledTrack(db: Db, g: nat, t: nat)
    requires Sound(db) && Unmarked(db, g) && t in db.tracks
    ensures CancelGroup(MarkGroup(db, g), g).tracks[t] == db.tracks[t]
  {
    var m := db.tracks[t].memberId;
    assert InGroup(db, m, g) <==> MarkedIn(MarkGroup(db, g), m, g);
  }

  lemma {:induction false} MarkTimesSame(db: Db, g: nat, n: nat)
    requires Sound(db) && Unmarked(db, g) && n > 0
    ensures MarkTimes(db, g, n) == MarkGroup(db, g) == MarkGroup(MarkTimes(db, g, n), g)
  {
    MarkRecords(db, g);
    MarkAgain(db, MarkGroup(db, g), g);
    if n > 1 {
      MarkTimesSame(db, g, n - 1);
    }
  }

  /** Neither cancels the group nor verifies a setup of one of its members. */
  predicate LeavesMark(db: Db, e: Event, g: nat) {
    && (e.Cancel? ==> e.group != g)
    && (e.Verify? && e.task.action.Setup? ==> !InGroup(db, e.task.memberId, g))
  }

  lemma StepLeavesMark(origin: Db, w: World, inventory: Inventory, e: Event, g: nat)
    requires Inv(w) && MarkOf(origin, w.db, g) && g < w.db.nextGroup && LeavesMark(w.db, e, g)
    ensures MarkOf(origin, After(w, inventory, e).db, g) && g < After(w, inventory, e).db.nextGroup
  {
    match e
    case Save(p) =>
      if SaveGroup(w.db, inventory, p).Some? {
        SaveLeavesMark(origin, w.db, inventory, p, g);
      }
    case Mark(h) =>
      if h == g { MarkAgain(origin, w.db, g); } else { OtherMarkLeavesMark(origin, w.db, h, g); }
    case Cancel(h) =>
      OtherCancelLeavesMark(origin, w.db, h, g);
    case Collect(host) =>
    case Verify(task, shown) =>
      if task in w.contexts && Verified(task, shown) {
        VerifyLeavesMark(origin, w, task, g);
      }
  }

  lemma OtherMarkLeavesMark(origin: Db, db: Db, h: nat, g: nat)
    requires MarkOf(origin, db, g) && h != g
    ensures MarkOf(origin, MarkGroup(db, h), g)
  {
    OtherLeavesMark(origin, db, MarkGroup(db, h), g);
  }

  lemma OtherCancelLeavesMark(origin: Db, db: Db, h: nat, g: nat)
    requires MarkOf(origin, db, g) && h != g
    ensures MarkOf(origin, CancelGroup(db, h), g)
  {
    OtherLeavesMark(origin, db, CancelGroup(db, h), g);
  }

  lemma VerifyLeavesMark(origin: Db, w: World, task: Task, g: nat)
    requires Inv(w) && MarkOf(origin, w.db, g) && task in w.contexts
    requires task.action.Setup? ==> !InGroup(w.db, task.memberId, g)
    ensures MarkOf(origin, Succeed(w.db, task), g) && Succeed(w.db, task).nextGroup == w.db.nextGroup
  {
    OtherLeavesMark(origin, w.db, Succeed(w.db, task), g);
  }

  /** Enough for the mark to stay: rows of the group's members do not change,
      and tracks only go with their member. */
  lemma OtherLeavesMark(origin: Db, db: Db, after: Db, g: nat)
    requires MarkOf(origin, db, g)
    requires forall m :: InGroup(after, m, g) ==> InGroup(db, m, g) && after.members[m] == db.members[m]
    requires forall t :: t in after.tracks && InGroup(after, after.tracks[t].memberId, g) ==> t in db.tracks && after.tracks[t] == db.tracks[t]
    requires forall t :: t in db.tracks && InGroup(after, db.tracks[t].memberId, g) ==> t in after.tracks && after.tracks[t] == db.tracks[t]
    ensures MarkOf(origin, after, g)
  {
  }

  lemma SaveLeavesMark(origin: Db, db: Db, inventory: Inventory, p: GroupInput, g: nat)
    requires Sound(db) && MarkOf(origin, db, g) && g < db.nextGroup && SaveGroup(db, inventory, p).Some?
    ensures MarkOf(origin, SaveGroup(db, inventory, p).value, g) && g < SaveGroup(db, inventory, p).value.nextGroup
  {
    SaveFrames(db, inventory, p);
    FrameLeavesMark(origin, db, SaveGroup(db, inventory, p).value, p.group, g);
  }

  lemma FrameLeavesMark(origin: Db, db: Db, after: Db, saved: Group, g: nat)
    requires Linked(db) && MarkOf(origin, db, g) && g < db.nextGroup && SaveFrame(db, after, saved)
    ensures MarkOf(origin, after, g) && g < after.nextGroup
  {
    OtherLeavesMark(origin, db, after, g);
  }

  /** Whatever is saved, marked, collected, removed or cancelled elsewhere in
      between, a cancel restores exactly the members that were not removed,
      provided no setup of theirs was verified after the mark. */
  lemma {:induction false} MarkSurvives(origin: Db, w: World, inventory: Inventory, events: seq<Event>, g: nat)
    requires Inv(w) && MarkOf(origin, w.db, g) && g < w.db.nextGroup
    requires forall i :: 0 <= i < |events| ==> LeavesMark(RunEvents(w, inventory, events[..i]).db, events[i], g)
    ensures var later := RunEvents(w, inventory, events);
      Inv(later) && MarkOf(origin, later.db, g) && g < later.db.nextGroup
  {
    if events != [] {
      var n := |events| - 1;
      forall i | 0 <= i < n
        ensures LeavesMark(RunEvents(w, inventory, events[..n][..i]).db, events[..n][i], g)
      {
        assert events[..n][..i] == events[..i];
      }
      MarkSurvives(origin, w, inventory, events[..n], g);
      StepLeavesMark(origin, RunEvents(w, inventory, events[..n]), inventory, events[n], g);
      StepInv(RunEvents(w, inventory, events[..n]), inventory, events[n]);
    }
  }

  lemma CancelRestoresSurvivors(w: World, inventory: Inventory, events: seq<Event>, g: nat)
    requires Inv(w) && Unmarked(w.db, g) && g < w.db.nextGroup
    requires var marked := w.(db := MarkGroup(w.db, g));
      forall i :: 0 <= i < |events| ==> LeavesMark(RunEvents(marked, inventory, events[..i]).db, events[i], g)
    ensures var later := RunEvents(w.(db := MarkGroup(w.db, g)), inventory, events);
      RestoredTo(w.db, CancelGroup(later.db, g), g)
  {
    var marked := w.(db := MarkGroup(w.db, g));
    StepInv(w, inventory, Mark(g));
    MarkRecords(w.db, g);
    MarkSurvives(w.db, marked, inventory, events, g);
    CancelRestores(w.db, RunEvents(marked, inventory, events).db, g);
  }

  // ---------------------------------------------------------------------
  // A setup verified after the mark
  // ---------------------------------------------------------------------

  predicate HasTracks(db: Db, m: nat) {
    exists t :: t in db.tracks && db.tracks[t].memberId == m
  }

  /** The condition is needed: once a setup of a member is verified after the mark,
      a cancel restores the group exactly when that member was synchronized before
      the mark and has no tracks. */
  lemma LateSetupUndoIff(origin: Db, w: World, task: Task, m: nat, g: nat)
    requires Sound(origin) && Unmarked(origin, g) && Inv(w) && MarkOf(origin, w.db, g)
    requires task in w.contexts && task.action.Setup? && task.memberId == m && InGroup(w.db, m, g)
    ensures RestoredTo(origin, CancelGroup(Succeed(w.db, task), g), g) <==>
            origin.members[m].status.Synchronized? && !HasTracks(w.db, m)
  {
    var after := CancelGroup(Succeed(w.db, task), g);
    LateSetupMember(origin, w.db, task, m, g);
    if t :| t in w.db.tracks && w.db.tracks[t].memberId == m {
      LateSetupTrack(origin, w.db, task, m, g, t);
      assert InGroup(after, after.tracks[t].memberId, g) && after.tracks[t] != origin.tracks[t];
    } else if origin.members[m].status.Synchronized? {
      LateSetupOthers(origin, w.db, task, m, g);
    }
  }

  lemma LateSetupMember(origin: Db, db: Db, task: Task, m: nat, g: nat)
    requires Sound(origin) && Unmarked(origin, g) && MarkOf(origin, db, g)
    requires task.action.Setup? && task.memberId == m && InGroup(db, m, g)
    ensures var after := CancelGroup(Succeed(db, task), g);
      && InGroup(after, m, g) && InGroup(origin, m, g) && after.members[m].status.Synchronized?
      && (after.members[m] == origin.members[m] <==> origin.members[m].status.Synchronized?)
  {
    assert MarkConsistent(origin.members[m].status, origin.members[m].restore);
  }

  /** A track of that member stays queued for deletion, also through the cancel. */
  lemma LateSetupTrack(origin: Db, db: Db, task: Task, m: nat, g: nat, t: nat)
    requires Unmarked(origin, g) && MarkOf(origin, db, g)
    requires task.action.Setup? && task.memberId == m && InGroup(db, m, g) && t in db.tracks && db.tracks[t].memberId == m
    ensures var after := CancelGroup(Succeed(db, task), g);
      t in after.tracks && after.tracks[t].memberId == m && after.tracks[t].status.PendingDelete?
      && t in origin.tracks && !origin.tracks[t].status.PendingDelete?
  {
    assert InGroup(origin, origin.tracks[t].memberId, g);
  }

  lemma LateSetupOthers(origin: Db, db: Db, task: Task, m: nat, g: nat)
    requires Sound(origin) && Unmarked(origin, g) && MarkOf(origin, db, g) && InGroup(db, m, g)
    requires task.action.Setup? && task.memberId == m && origin.members[m].status.Synchronized? && !HasTracks(db, m)
    ensures RestoredTo(origin, CancelGroup(Succeed(db, task), g), g)
  {
    CancelRestores(origin, db, g);
    SetupThenCancelMembers(db, m, g);
    SetupThenCancelTracks(db, m, g);
  }

  lemma SetupThenCancelMembers(db: Db, m: nat, g: nat)
    requires InGroup(db, m, g) && db.members[m].status.PendingDelete? && db.members[m].restore == Some(Synchronized)
    ensures CancelGroup(SetupMember(db, m), g).members == CancelGroup(db, g).members
  {
    var setup := SetupMember(db, m);
    forall n | n in db.members && n != m
      ensures MarkedIn(setup, n, g) <==> MarkedIn(db, n, g)
    {
    }
  }

  lemma SetupThenCancelTracks(db: Db, m: nat, g: nat)
    requires !HasTracks(db, m)
    ensures CancelGroup(SetupMember(db, m), g).tracks == CancelGroup(db, g).tracks
  {
    var setup := SetupMember(db, m);
    assert setup.tracks == db.tracks;
    forall t | t in db.tracks
      ensures MarkedIn(setup, db.tracks[t].memberId, g) <==> MarkedIn(db, db.tracks[t].memberId, g)
    {
    }
  }

  /** The member is synchronized, so no task will be collected for it, and its tracks
      await deletion, whatever is cancelled. */
  ghost predicate TracksLeftMarked(db: Db, m: nat) {
    && m in db.members && db.members[m].status.Synchronized? && !Pending(db, m)
    && (exists t :: t in db.tracks && db.tracks[t].memberId == m && db.tracks[t].status.PendingDelete?)
  }

  lemma FirstGroupSaved(inventory: Inventory, p: GroupInput)
    requires InputValid(p, inventory) && p.members[0].tracks != []
    ensures var db := InsertGroup(EMPTY, p);
      && SaveGroup(EMPTY, inventory, p) == Some(db) && Pending(db, 1) && InGroup(db, 1, 1)
      && db.members[1].status.PendingApply? && db.members[1].at == p.members[0].at && HasTracks(db, 1) && Unmarked(db, 1)
  {
    var db := InsertGroup(EMPTY, p);
    InsertedGroup(EMPTY, p, 0);
    var first: nat :| StoredAs(db, 1, 1, first, p.members[0]);
    assert first in db.tracks && db.tracks[first].memberId == 1;
    FirstUnmarked(db, p);
  }

  lemma FirstUnmarked(db: Db, p: GroupInput)
    requires db == InsertGroup(EMPTY, p) && |p.members| >= 2
    ensures Unmarked(db, 1)
  {
    InsertMembersEffect(WithGroup(EMPTY, p.group), 1, p.members);
  }

  /** A run from nothing: a group is saved and its tasks are collected and sent; it is
      marked for deletion; then the setup of its first member is verified. A cancel
      no longer restores the group. */
  lemma LateSetupRun(inventory: Inventory, p: GroupInput, shown: Shown, sent: World, marked: World, late: World)
    requires InputValid(p, inventory) && p.members[0].tracks != []
    requires sent == After(After(START, inventory, Save(p)), inventory, Collect(p.members[0].at.host))
    requires marked == After(sent, inventory, Mark(1))
    requires Pending(sent.db, 1) && Verified(TaskOf(sent.db, 1), shown)
    requires late == After(marked, inventory, Verify(TaskOf(sent.db, 1), shown))
    ensures TracksLeftMarked(late.db, 1) && TracksLeftMarked(CancelGroup(late.db, 1), 1)
    ensures !RestoredTo(sent.db, CancelGroup(late.db, 1), 1)
  {
    FirstGroupSaved(inventory, p);
    EveryRunInv(inventory, []);
    StepInv(START, inventory, Save(p));
    StepInv(After(START, inventory, Save(p)), inventory, Collect(p.members[0].at.host));
    LateSetup(inventory, sent, TaskOf(sent.db, 1), 1, 1, marked, late, shown);
  }

  lemma MarkStep(w: World, inventory: Inventory, g: nat)
    requires Inv(w)
    ensures After(w, inventory, Mark(g)) == w.(db := MarkGroup(w.db, g)) && Inv(w.(db := MarkGroup(w.db, g)))
  {
    StepInv(w, inventory, Mark(g));
  }

  lemma VerifyStep(w: World, inventory: Inventory, task: Task, shown: Shown)
    requires task in w.contexts && Verified(task, shown)
    ensures After(w, inventory, Verify(task, shown)).db == Succeed(w.db, task)
  {
  }

  lemma LateSetup(inventory: Inventory, sent: World, task: Task, m: nat, g: nat, marked: World, late: World, shown: Shown)
    requires Inv(sent) && InGroup(sent.db, m, g) && sent.db.members[m].status.PendingApply? && HasTracks(sent.db, m)
    requires task.action.Setup? && task.memberId == m && task in sent.contexts && Verified(task, shown)
    requires Unmarked(sent.db, g) && marked == After(sent, inventory, Mark(g)) && late == After(marked, inventory, Verify(task, shown))
    ensures TracksLeftMarked(late.db, m) && TracksLeftMarked(CancelGroup(late.db, g), m)
    ensures !RestoredTo(sent.db, CancelGroup(late.db, g), g)
  {
    MarkStep(sent, inventory, g);
    MarkRecords(sent.db, g);
    VerifyStep(marked, inventory, task, shown);
    LateSetupUndone(sent.db, marked, task, m, g);
  }

  lemma LateSetupUndone(origin: Db, w: World, task: Task, m: nat, g: nat)
    requires Sound(origin) && Unmarked(origin, g) && Inv(w) && w.db == MarkGroup(origin, g) && MarkOf(origin, w.db, g)
    requires InGroup(origin, m, g) && origin.members[m].status.PendingApply? && HasTracks(origin, m)
    requires task in w.contexts && task.action.Setup? && task.memberId == m
    ensures TracksLeftMarked(Succeed(w.db, task), m) && TracksLeftMarked(CancelGroup(Succeed(w.db, task), g), m)
    ensures !RestoredTo(origin, CancelGroup(Succeed(w.db, task), g), g)
  {
    assert InGroup(w.db, m, g);
    LateSetupUndoIff(origin, w, task, m, g);
    LateSetupStuck(origin, w.db, task, m, g);
  }

  lemma LateSetupStuck(origin: Db, db: Db, task: Task, m: nat, g: nat)
    requires Unmarked(origin, g) && MarkOf(origin, db, g) && InGroup(origin, m, g) && InGroup(db, m, g) && HasTracks(origin, m)
    requires task.action.Setup? && task.memberId == m
    ensures TracksLeftMarked(Succeed(db, task), m) && TracksLeftMarked(CancelGroup(Succeed(db, task), g), m)
  {
    var t :| t in origin.tracks && origin.tracks[t].memberId == m;
    assert t in db.tracks && db.tracks[t].memberId == m;
    LateSetupTrack(origin, db, task, m, g, t);
  }
}
