// The device during deferred verification: when a synchronized member is missing
// from it.

module FhrpDevice {
  import opened Common
  import opened FhrpTables
  import opened FhrpRuns
  import opened FhrpPush

  /** Tables and tasks, the device, and the members for whom a removal was sent last. */
  datatype Live = Live(w: World, dev: Device, removed: set<nat>)

  const FRESH := Live(START, map[], {})

  /** A send takes any pending members, of any hosts, in any order; verification of
      its tasks comes later, or never. */
  datatype Move = Table(e: Event) | Send(members: seq<nat>)

  function KeyAt(db: Db, m: nat): DeviceKey
    requires m in db.members && db.members[m].fhrpId in db.groups
  {
    KeyOf(db.members[m].at, GroupOf(db, m))
  }

  /** The running configuration has policy of a key exactly if the device does, and
      activates it with the device's address only. */
  ghost predicate Truthful(shown: Shown, dev: Device) {
    && (forall key: DeviceKey :: key in dev <==>
      exists line :: line in Running(shown, key.at) && line.protocol == key.protocol && line.number == key.number)
    && (forall key: DeviceKey, vip ::
      Activation(key.protocol, key.number, vip) in Running(shown, key.at) ==> Holds(dev, key, vip))
  }

  function SendAll(dev: Device, tasks: seq<Task>): Device {
    if tasks == [] then dev else Push(SendAll(dev, tasks[..|tasks| - 1]), tasks[|tasks| - 1])
  }

  function RemovedBy(db: Db, removed: set<nat>, members: seq<nat>): set<nat>
    requires forall m :: m in members ==> m in db.members
  {
    (set m | m in removed && m !in members) + (set m | m in members && db.members[m].status.PendingDelete?)
  }

  ghost function Next(s: Live, inventory: Inventory, move: Move): Live {
    match move
    case Table(e) => s.(w := After(s.w, inventory, e))
    case Send(members) =>
      if !Pushable(s.w.db, members) then s
      else
        Live(s.w.(contexts := s.w.contexts + set m | m in members :: TaskOf(s.w.db, m)),
             SendAll(s.dev, Tasks(s.w.db, members)), RemovedBy(s.w.db, s.removed, members))
  }

  ghost function RunMoves(s: Live, inventory: Inventory, moves: seq<Move>): Live {
    if moves == [] then s
    else Next(RunMoves(s, inventory, moves[..|moves| - 1]), inventory, moves[|moves| - 1])
  }

  /** A verification reads the device as it is at that moment. */
  ghost predicate Honest(s: Live, move: Move) {
    move.Table? && move.e.Verify? ==> Truthful(move.e.shown, s.dev)
  }

  /** What is on the device is what the last task sent for each member left. */
  ghost predicate Exact(s: Live) {
    && Inv(s.w)
    && (forall m :: m in s.removed ==> m < s.w.db.nextMember)
    && (forall m :: m in s.w.db.members && m in s.removed ==> KeyAt(s.w.db, m) !in s.dev)
    && (forall m :: m in s.w.db.members && m !in s.removed && OnceSynchronized(s.w.db.members[m]) ==>
      Holds(s.dev, KeyAt(s.w.db, m), GroupOf(s.w.db, m).vip))
  }

  // ---------------------------------------------------------------------
  // Sending
  // ---------------------------------------------------------------------

  lemma {:induction false} SentKeys(dev: Device, tasks: seq<Task>, key: DeviceKey, vip: string)
    requires forall i, j :: 0 <= i < j < |tasks| ==> tasks[i].key != tasks[j].key
    ensures Holds(SendAll(dev, tasks), key, vip) <==>
      (exists i :: 0 <= i < |tasks| && tasks[i].key == key && tasks[i].action.Setup? && tasks[i].vip == vip)
      || (Holds(dev, key, vip) && forall i :: 0 <= i < |tasks| ==> tasks[i].key != key)
  {
    if tasks != [] {
      var n := |tasks| - 1;
      SentKeys(dev, tasks[..n], key, vip);
      assert tasks == tasks[..n] + [tasks[n]];
    }
  }

  lemma TaskKey(db: Db, m: nat, n: nat, key: DeviceKey)
    requires Sound(db) && Pending(db, m) && n in db.members && KeyAt(db, n) == key
    ensures TaskOf(db, m).key == key <==> m == n
  {
    assert TaskOf(db, m).key == key ==> SameKey(db, m, n);
  }

  lemma TaskKeysDistinct(db: Db, members: seq<nat>)
    requires Sound(db) && Pushable(db, members)
    ensures var tasks := Tasks(db, members);
      forall i, j :: 0 <= i < j < |tasks| ==> tasks[i].key != tasks[j].key
  {
    var tasks := Tasks(db, members);
    forall i, j | 0 <= i < j < |tasks|
      ensures tasks[i].key != tasks[j].key
    {
      assert members[i] in members && members[j] in members;
      TaskKey(db, members[i], members[j], tasks[j].key);
    }
  }

  /** A sent member's key is on the device, with its group's address, exactly after a
      setup; no other key changes. */
  lemma SentKey(db: Db, dev: Device, members: seq<nat>, m: nat, vip: string)
    requires Sound(db) && Pushable(db, members) && m in db.members
    ensures Holds(SendAll(dev, Tasks(db, members)), KeyAt(db, m), vip) <==>
      if m in members then !db.members[m].status.PendingDelete? && vip == GroupOf(db, m).vip
      else Holds(dev, KeyAt(db, m), vip)
  {
    var tasks, key := Tasks(db, members), KeyAt(db, m);
    TaskKeysDistinct(db, members);
    SentKeys(dev, tasks, key, vip);
    forall i | 0 <= i < |tasks|
      ensures tasks[i].key == key <==> members[i] == m
    {
      TaskKey(db, members[i], m, key);
    }
    if m in members {
      var i :| 0 <= i < |members| && members[i] == m;
      assert tasks[i] == TaskOf(db, m);
    }
  }

  lemma SentAbsent(db: Db, dev: Device, members: seq<nat>, m: nat)
    requires Sound(db) && Pushable(db, members) && m in db.members
    requires if m in members then db.members[m].status.PendingDelete? else KeyAt(db, m) !in dev
    ensures KeyAt(db, m) !in SendAll(dev, Tasks(db, members))
  {
    var sent, key := SendAll(dev, Tasks(db, members)), KeyAt(db, m);
    SentKey(db, dev, members, m, if key in sent then sent[key] else "");
  }

  lemma SendExact(s: Live, inventory: Inventory, members: seq<nat>)
    requires Exact(s) && Pushable(s.w.db, members)
    ensures Exact(Next(s, inventory, Send(members)))
  {
    var after := Next(s, inventory, Send(members));
    forall m | m in members
      ensures Current(s.w.db, TaskOf(s.w.db, m))
    {
    }
    forall m | m in s.w.db.members
      ensures m in after.removed ==> KeyAt(s.w.db, m) !in after.dev
      ensures m !in after.removed && OnceSynchronized(s.w.db.members[m]) ==> Holds(after.dev, KeyAt(s.w.db, m), GroupOf(s.w.db, m).vip)
    {
      SentKey(s.w.db, s.dev, members, m, GroupOf(s.w.db, m).vip);
      if m in after.removed { SentAbsent(s.w.db, s.dev, members, m); }
    }
  }

  // ---------------------------------------------------------------------
  // Edits and verifications
  // ---------------------------------------------------------------------

  /** Enough for exactness to stay: rows keep their keys, none becomes synchronized,
      and new rows have new ids. */
  lemma ExactKept(s: Live, w: World)
    requires Exact(s) && Inv(w) && s.w.db.nextMember <= w.db.nextMember
    requires forall m :: m in w.db.members && m in s.w.db.members ==>
      && KeyAt(w.db, m) == KeyAt(s.w.db, m) && GroupOf(w.db, m).vip == GroupOf(s.w.db, m).vip
      && (OnceSynchronized(w.db.members[m]) ==> OnceSynchronized(s.w.db.members[m]))
    requires forall m :: m in w.db.members && m !in s.w.db.members ==> m >= s.w.db.nextMember && !OnceSynchronized(w.db.members[m])
    ensures Exact(s.(w := w))
  {
  }

  /** A setup that reads back from the device was not followed by a removal. */
  lemma VerifyExact(s: Live, inventory: Inventory, task: Task, shown: Shown)
    requires Exact(s) && Truthful(shown, s.dev) && task in s.w.contexts && Verified(task, shown)
    requires Inv(After(s.w, inventory, Verify(task, shown)))
    ensures Exact(s.(w := After(s.w, inventory, Verify(task, shown))))
  {
    assert Current(s.w.db, task);
    if task.action.Remove? {
      RemovedExact(s, After(s.w, inventory, Verify(task, shown)), task);
    } else {
      assert Activation(task.key.protocol, task.key.number, task.vip) in Running(shown, task.key.at);
      assert Holds(s.dev, task.key, task.vip);
      SetupExact(s, After(s.w, inventory, Verify(task, shown)), task);
    }
  }

  lemma RemovedExact(s: Live, w: World, task: Task)
    requires Exact(s) && Inv(w) && w.db == RemoveMember(s.w.db, task)
    ensures Exact(s.(w := w))
  {
    ExactKept(s, w);
  }

  lemma SetupExact(s: Live, w: World, task: Task)
    requires Exact(s) && Inv(w) && w.db == SetupMember(s.w.db, task.memberId) && Current(s.w.db, task) && Holds(s.dev, task.key, task.vip)
    ensures Exact(s.(w := w))
  {
    forall m | m in w.db.members
      ensures m in s.w.db.members && KeyAt(w.db, m) == KeyAt(s.w.db, m) && GroupOf(w.db, m) == GroupOf(s.w.db, m)
      ensures m == task.memberId ==> KeyAt(w.db, m) == task.key && GroupOf(w.db, m).vip == task.vip
      ensures m != task.memberId ==> w.db.members[m] == s.w.db.members[m]
    {
    }
  }

  lemma SaveExact(s: Live, inventory: Inventory, p: GroupInput)
    requires Exact(s) && SaveGroup(s.w.db, inventory, p).Some?
    ensures Exact(s.(w := After(s.w, inventory, Save(p))))
  {
    SaveStepInv(s.w, inventory, p);
    SaveFrames(s.w.db, inventory, p);
    SavedKeys(s.w.db, SaveGroup(s.w.db, inventory, p).value, p.group);
    ExactKept(s, After(s.w, inventory, Save(p)));
  }

  lemma SavedKeys(db: Db, after: Db, group: Group)
    requires Linked(db) && Linked(after) && SaveFrame(db, after, group)
    ensures forall m :: m in after.members && m in db.members ==> KeyAt(after, m) == KeyAt(db, m) && GroupOf(after, m) == GroupOf(db, m)
  {
  }

  lemma MarkExact(s: Live, inventory: Inventory, g: nat)
    requires Exact(s) && Inv(After(s.w, inventory, Mark(g)))
    ensures Exact(s.(w := After(s.w, inventory, Mark(g))))
  {
    ExactKept(s, After(s.w, inventory, Mark(g)));
  }

  lemma CancelExact(s: Live, inventory: Inventory, g: nat)
    requires Exact(s) && Inv(After(s.w, inventory, Cancel(g)))
    ensures Exact(s.(w := After(s.w, inventory, Cancel(g))))
  {
    ExactKept(s, After(s.w, inventory, Cancel(g)));
  }

  lemma EventExact(s: Live, inventory: Inventory, e: Event)
    requires Exact(s) && Honest(s, Table(e))
    ensures Exact(Next(s, inventory, Table(e)))
  {
    StepInv(s.w, inventory, e);
    match e
    case Save(p) => if SaveGroup(s.w.db, inventory, p).Some? { SaveExact(s, inventory, p); }
    case Mark(g) => MarkExact(s, inventory, g);
    case Cancel(g) => CancelExact(s, inventory, g);
    case Collect(host) => ExactKept(s, After(s.w, inventory, e));
    case Verify(task, shown) => if task in s.w.contexts && Verified(task, shown) { VerifyExact(s, inventory, task, shown); }
  }

  // ---------------------------------------------------------------------
  // Runs
  // ---------------------------------------------------------------------

  /** The tables say synchronized, the device has nothing, and no task is pending. */
  predicate Lost(s: Live, m: nat) {
    && m in s.w.db.members && s.w.db.members[m].fhrpId in s.w.db.groups
    && s.w.db.members[m].status.Synchronized? && KeyAt(s.w.db, m) !in s.dev
  }

  /** In every interleaving of edits, sends and verifications that read the device, a
      synchronized member is missing from the device exactly when what was sent last
      for it was a removal; otherwise it is there with its group's virtual address. */
  lemma {:induction false} EveryRunLosesIff(inventory: Inventory, moves: seq<Move>)
    requires forall i :: 0 <= i < |moves| ==> Honest(RunMoves(FRESH, inventory, moves[..i]), moves[i])
    ensures var s := RunMoves(FRESH, inventory, moves);
      && Exact(s)
      && forall m :: m in s.w.db.members && s.w.db.members[m].status.Synchronized? ==>
        (Lost(s, m) <==> m in s.removed) && (m !in s.removed ==> Holds(s.dev, KeyAt(s.w.db, m), GroupOf(s.w.db, m).vip))
  {
    if moves == [] {
      EveryRunInv(inventory, []);
    } else {
      var n := |moves| - 1;
      forall i | 0 <= i < n
        ensures Honest(RunMoves(FRESH, inventory, moves[..n][..i]), moves[..n][i])
      {
        assert moves[..n][..i] == moves[..i];
      }
      EveryRunLosesIff(inventory, moves[..n]);
      MoveExact(RunMoves(FRESH, inventory, moves[..n]), inventory, moves[n]);
    }
  }

  lemma MoveExact(s: Live, inventory: Inventory, move: Move)
    requires Exact(s) && Honest(s, move)
    ensures Exact(Next(s, inventory, move))
  {
    match move
    case Table(e) => EventExact(s, inventory, e);
    case Send(members) => if Pushable(s.w.db, members) { SendExact(s, inventory, members); }
  }

  lemma RemovalSent(s: Live, inventory: Inventory, m: nat, g: nat, sent: Live)
    requires Exact(s) && MarkedIn(s.w.db, m, g) && sent == Next(s, inventory, Send([m]))
    ensures Inv(sent.w) && sent.w.db == s.w.db && TaskOf(s.w.db, m) in sent.w.contexts && KeyAt(s.w.db, m) !in sent.dev
  {
    SendExact(s, inventory, [m]);
    SentAbsent(s.w.db, s.dev, [m], m);
  }

  lemma CancelledMember(sent: Live, inventory: Inventory, m: nat, g: nat, cancelled: Live)
    requires Inv(sent.w) && MarkedIn(sent.w.db, m, g) && KeyAt(sent.w.db, m) !in sent.dev
    requires cancelled == Next(sent, inventory, Table(Cancel(g)))
    ensures Inv(cancelled.w) && cancelled.dev == sent.dev && cancelled.w.contexts == sent.w.contexts
    ensures m in cancelled.w.db.members && KeyAt(cancelled.w.db, m) == KeyAt(sent.w.db, m)
    ensures Lost(cancelled, m) <==> sent.w.db.members[m].restore == Some(Synchronized)
  {
    StepInv(sent.w, inventory, Cancel(g));
  }

  /** A cancel after a removal was sent loses the member exactly when it was
      synchronized before the mark. A verification of that removal ends the loss by
      taking the member out of the tables, which it does whenever it reads the
      device; one that fails leaves the loss. */
  lemma CancelBetweenIff(s: Live, inventory: Inventory, m: nat, g: nat, shown: Shown, sent: Live, cancelled: Live, verified: Live)
    requires Exact(s) && MarkedIn(s.w.db, m, g)
    requires sent == Next(s, inventory, Send([m])) && cancelled == Next(sent, inventory, Table(Cancel(g)))
    requires verified == Next(cancelled, inventory, Table(Verify(TaskOf(s.w.db, m), shown)))
    ensures Lost(cancelled, m) <==> s.w.db.members[m].restore == Some(Synchronized)
    ensures Lost(verified, m) <==> s.w.db.members[m].restore == Some(Synchronized) && !Verified(TaskOf(s.w.db, m), shown)
    ensures Truthful(shown, cancelled.dev) ==> m !in verified.w.db.members
  {
    RemovalSent(s, inventory, m, g, sent);
    CancelledMember(sent, inventory, m, g, cancelled);
    RemovalVerified(cancelled, inventory, TaskOf(s.w.db, m), shown, verified);
    if Truthful(shown, cancelled.dev) {
      assert TaskOf(s.w.db, m).key == KeyAt(s.w.db, m);
    }
  }

  lemma RemovalVerified(cancelled: Live, inventory: Inventory, task: Task, shown: Shown, verified: Live)
    requires task in cancelled.w.contexts && task.action.Remove? && verified == Next(cancelled, inventory, Table(Verify(task, shown)))
    ensures if Verified(task, shown) then task.memberId !in verified.w.db.members else verified == cancelled
    ensures Truthful(shown, cancelled.dev) ==> (Verified(task, shown) <==> task.key !in cancelled.dev)
  {
  }

  lemma FirstMemberSaved(inventory: Inventory, p: GroupInput)
    requires InputValid(p, inventory)
    ensures var db := After(START, inventory, Save(p)).db;
      Pending(db, 1) && InGroup(db, 1, 1) && db.members[1].status.PendingApply?
  {
    InsertMembersEffect(WithGroup(EMPTY, p.group), 1, p.members);
  }

  lemma MemberConfirmed(sent: Live, inventory: Inventory, m: nat, g: nat, shown: Shown, confirmed: Live, marked: Live)
    requires Inv(sent.w) && Pending(sent.w.db, m) && InGroup(sent.w.db, m, g) && sent.w.db.members[m].status.PendingApply?
    requires TaskOf(sent.w.db, m) in sent.w.contexts && Verified(TaskOf(sent.w.db, m), shown)
    requires confirmed == Next(sent, inventory, Table(Verify(TaskOf(sent.w.db, m), shown)))
    requires marked == Next(confirmed, inventory, Table(Mark(g)))
    ensures MarkedIn(marked.w.db, m, g) && marked.w.db.members[m].restore == Some(Synchronized)
  {
  }

  /** A run from nothing that loses a member: a group is saved, its first member sent
      and verified; the group is marked, the removal sent, and the mark cancelled. */
  lemma LostRun(inventory: Inventory, p: GroupInput, shown: Shown,
                saved: Live, sent: Live, confirmed: Live, marked: Live, removal: Live, end: Live)
    requires InputValid(p, inventory)
    requires saved == Next(FRESH, inventory, Table(Save(p))) && sent == Next(saved, inventory, Send([1]))
    requires Pending(saved.w.db, 1) && Truthful(shown, sent.dev) && Verified(TaskOf(saved.w.db, 1), shown)
    requires confirmed == Next(sent, inventory, Table(Verify(TaskOf(saved.w.db, 1), shown)))
    requires marked == Next(confirmed, inventory, Table(Mark(1)))
    requires removal == Next(marked, inventory, Send([1])) && end == Next(removal, inventory, Table(Cancel(1)))
    ensures Lost(end, 1)
  {
    FirstSent(inventory, p, saved, sent);
    LossOnCancel(inventory, shown, sent, confirmed, marked, removal, end);
  }

  lemma FirstSent(inventory: Inventory, p: GroupInput, saved: Live, sent: Live)
    requires InputValid(p, inventory)
    requires saved == Next(FRESH, inventory, Table(Save(p))) && sent == Next(saved, inventory, Send([1]))
    ensures Exact(sent) && sent.w.db == saved.w.db && Pending(sent.w.db, 1) && InGroup(sent.w.db, 1, 1)
    ensures sent.w.db.members[1].status.PendingApply? && TaskOf(sent.w.db, 1) in sent.w.contexts
  {
    FirstMemberSaved(inventory, p);
    EveryRunInv(inventory, []);
    MoveExact(FRESH, inventory, Table(Save(p)));
    MoveExact(saved, inventory, Send([1]));
  }

  lemma LossOnCancel(inventory: Inventory, shown: Shown, sent: Live, confirmed: Live, marked: Live, removal: Live, end: Live)
    requires Exact(sent) && Pending(sent.w.db, 1) && InGroup(sent.w.db, 1, 1) && sent.w.db.members[1].status.PendingApply?
    requires TaskOf(sent.w.db, 1) in sent.w.contexts && Truthful(shown, sent.dev) && Verified(TaskOf(sent.w.db, 1), shown)
    requires confirmed == Next(sent, inventory, Table(Verify(TaskOf(sent.w.db, 1), shown)))
    requires marked == Next(confirmed, inventory, Table(Mark(1)))
    requires removal == Next(marked, inventory, Send([1])) && end == Next(removal, inventory, Table(Cancel(1)))
    ensures Lost(end, 1)
  {
    MoveExact(sent, inventory, Table(Verify(TaskOf(sent.w.db, 1), shown)));
    MoveExact(confirmed, inventory, Table(Mark(1)));
    MemberConfirmed(sent, inventory, 1, 1, shown, confirmed, marked);
    RemovalSent(marked, inventory, 1, 1, removal);
    CancelledMember(removal, inventory, 1, 1, end);
  }
}
