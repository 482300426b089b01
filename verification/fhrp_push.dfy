// Pushing and verifying as one step: the device against the tables.

module FhrpPush {
  import opened Common
  import opened FhrpTables
  import opened FhrpRuns

  /** The virtual address configured under each key. */
  type Device = map<DeviceKey, string>

  predicate Holds(dev: Device, key: DeviceKey, vip: string) {
    key in dev && dev[key] == vip
  }

  function Push(dev: Device, task: Task): Device {
    if task.action.Remove? then dev - {task.key} else dev[task.key := task.vip]
  }

  /** Push and advance the tasks of `members` in that order. */
  function PushAll(db: Db, dev: Device, tasks: seq<Task>): (Db, Device) {
    if tasks == [] then (db, dev)
    else
      var (d, v) := PushAll(db, dev, tasks[..|tasks| - 1]);
      (Succeed(d, tasks[|tasks| - 1]), Push(v, tasks[|tasks| - 1]))
  }

  function Tasks(db: Db, members: seq<nat>): (r: seq<Task>)
    requires forall m :: m in members ==> Pending(db, m)
    ensures |r| == |members| && forall i :: 0 <= i < |members| ==> r[i] == TaskOf(db, members[i])
  {
    seq(|members|, i requires 0 <= i < |members| => TaskOf(db, members[i]))
  }

  /** The member's key is configured with its group's address: it was synchronized,
      and is at most marked since. */
  predicate InstalledBy(db: Db, m: nat, key: DeviceKey, vip: string) {
    && m in db.members && db.members[m].fhrpId in db.groups && OnceSynchronized(db.members[m])
    && KeyOf(db.members[m].at, GroupOf(db, m)) == key && GroupOf(db, m).vip == vip
  }

  ghost predicate Installed(db: Db, key: DeviceKey, vip: string) {
    exists m :: InstalledBy(db, m, key, vip)
  }

  /** The device holds exactly the installed keys with their addresses. */
  ghost predicate Agrees(db: Db, dev: Device) {
    forall key, vip :: Holds(dev, key, vip) <==> Installed(db, key, vip)
  }

  // ---------------------------------------------------------------------
  // The result of a batch, whatever its order
  // ---------------------------------------------------------------------

  predicate Gone(db: Db, ids: set<nat>, m: nat) {
    m in ids && m in db.members && db.members[m].status.PendingDelete?
  }

  ghost predicate Populated(members: map<nat, Member>, g: nat) {
    exists m :: m in members && members[m].fhrpId == g
  }

  function SettledMembers(db: Db, ids: set<nat>): map<nat, Member> {
    map m | m in db.members && !Gone(db, ids, m) ::
      if m in ids then db.members[m].(status := Synchronized, restore := None) else db.members[m]
  }

  function SettledTracks(db: Db, ids: set<nat>): map<nat, Track> {
    map t | t in db.tracks && !Gone(db, ids, db.tracks[t].memberId) ::
      if db.tracks[t].memberId in ids && db.tracks[t].status.PendingApply?
      then db.tracks[t].(status := Synchronized, restore := None) else db.tracks[t]
  }

  /** The tables after the tasks of `ids` succeeded. */
  ghost function Settled(db: Db, ids: set<nat>): Db {
    db.(members := SettledMembers(db, ids), tracks := SettledTracks(db, ids),
        groups := map g | g in db.groups && Populated(SettledMembers(db, ids), g) :: db.groups[g])
  }

  lemma SettledTask(db: Db, ids: set<nat>, m: nat)
    requires Linked(db) && m !in ids && Pending(db, m)
    ensures Pending(Settled(db, ids), m) && TaskOf(Settled(db, ids), m) == TaskOf(db, m)
  {
    assert m in SettledMembers(db, ids) && SettledMembers(db, ids)[m] == db.members[m];
    assert Populated(SettledMembers(db, ids), db.members[m].fhrpId);
  }

  lemma SettleRemoval(db: Db, ids: set<nat>, m: nat)
    requires Linked(db) && m !in ids && Pending(db, m) && db.members[m].status.PendingDelete?
    ensures RemoveMember(Settled(db, ids), TaskOf(db, m)) == Settled(db, ids + {m})
  {
    var next, after := RemoveMember(Settled(db, ids), TaskOf(db, m)), Settled(db, ids + {m});
    SettledRowsWithout(db, ids, m, next.tracks);
    forall g
      ensures g in next.groups <==> g in after.groups
    {
      PopulatedWithout(SettledMembers(db, ids), m, g);
    }
    assert next.groups == after.groups;
  }

  lemma SettledRowsWithout(db: Db, ids: set<nat>, m: nat, tracks: map<nat, Track>)
    requires m in db.members && m !in ids && db.members[m].status.PendingDelete?
    requires tracks == map t | t in SettledTracks(db, ids) && SettledTracks(db, ids)[t].memberId != m :: SettledTracks(db, ids)[t]
    ensures SettledMembers(db, ids + {m}) == SettledMembers(db, ids) - {m}
    ensures SettledTracks(db, ids + {m}) == tracks
  {
  }

  lemma PopulatedWithout(members: map<nat, Member>, m: nat, g: nat)
    requires m in members
    ensures Populated(members, g) <==> Populated(members - {m}, g) || members[m].fhrpId == g
  {
    if n :| n in members - {m} && members[n].fhrpId == g {
      assert n in members && members[n].fhrpId == g;
    }
    if n :| n in members && n != m && members[n].fhrpId == g {
      assert n in members - {m} && (members - {m})[n].fhrpId == g;
    }
  }

  lemma SettleSetup(db: Db, ids: set<nat>, m: nat)
    requires Linked(db) && m !in ids && Pending(db, m) && !db.members[m].status.PendingDelete?
    ensures SetupMember(Settled(db, ids), m) == Settled(db, ids + {m})
  {
    var before, after := SettledMembers(db, ids), SettledMembers(db, ids + {m});
    assert after == before[m := before[m].(status := Synchronized, restore := None)];
    assert SetupMember(Settled(db, ids), m).tracks == SettledTracks(db, ids + {m});
    forall g
      ensures Populated(before, g) <==> Populated(after, g)
    {
      PopulatedWithout(before, m, g);
      PopulatedWithout(after, m, g);
      assert before - {m} == after - {m};
    }
    assert Settled(db, ids).groups == Settled(db, ids + {m}).groups;
  }

  lemma SettleOne(db: Db, ids: set<nat>, m: nat)
    requires Linked(db) && m !in ids && Pending(db, m)
    ensures Succeed(Settled(db, ids), TaskOf(db, m)) == Settled(db, ids + {m})
  {
    if db.members[m].status.PendingDelete? {
      SettleRemoval(db, ids, m);
    } else {
      SettleSetup(db, ids, m);
    }
  }

  lemma PushOneAgrees(db: Db, dev: Device, m: nat)
    requires Sound(db) && Pending(db, m) && Agrees(db, dev)
    ensures Agrees(Succeed(db, TaskOf(db, m)), Push(dev, TaskOf(db, m)))
  {
    var task := TaskOf(db, m);
    forall key, vip
      ensures Holds(Push(dev, task), key, vip) <==> Installed(Succeed(db, task), key, vip)
    {
      if key == task.key {
        OwnKeyInstalled(db, m, vip);
        assert Holds(Push(dev, task), key, vip) <==> task.action.Setup? && vip == task.vip;
      } else {
        OtherKeyInstalled(db, m, key, vip);
        assert Holds(Push(dev, task), key, vip) <==> Holds(dev, key, vip);
      }
    }
  }

  lemma OwnKeyInstalled(db: Db, m: nat, vip: string)
    requires Sound(db) && Pending(db, m)
    ensures var task := TaskOf(db, m);
      Installed(Succeed(db, task), task.key, vip) <==> task.action.Setup? && vip == task.vip
  {
    var task := TaskOf(db, m);
    var after := Succeed(db, task);
    if n :| InstalledBy(after, n, task.key, vip) {
      assert SameKey(db, m, n);
    }
    if task.action.Setup? {
      assert InstalledBy(after, m, task.key, task.vip);
    }
  }

  lemma OtherKeyInstalled(db: Db, m: nat, key: DeviceKey, vip: string)
    requires Sound(db) && Pending(db, m) && key != TaskOf(db, m).key
    ensures Installed(Succeed(db, TaskOf(db, m)), key, vip) <==> Installed(db, key, vip)
  {
    var after := Succeed(db, TaskOf(db, m));
    if n :| InstalledBy(db, n, key, vip) {
      assert n != m;
      StillInstalled(db, m, n);
      assert InstalledBy(after, n, key, vip);
    }
    if n :| InstalledBy(after, n, key, vip) {
      assert n != m && InstalledBy(db, n, key, vip);
    }
  }

  lemma StillInstalled(db: Db, m: nat, n: nat)
    requires Sound(db) && Pending(db, m) && n in db.members && n != m
    ensures var after := Succeed(db, TaskOf(db, m));
      n in after.members && after.members[n] == db.members[n] && db.members[n].fhrpId in after.groups
      && after.groups[db.members[n].fhrpId] == db.groups[db.members[n].fhrpId]
  {
  }

  lemma SucceedSound(db: Db, m: nat)
    requires Sound(db) && Pending(db, m)
    ensures Sound(Succeed(db, TaskOf(db, m)))
  {
    if TaskOf(db, m).action.Remove? {
      RemoveSound(db, TaskOf(db, m));
    } else {
      SetupSound(db, m);
    }
  }

  /** A batch in any order of distinct pending members leaves the same tables,
      and a device that agrees with them. */
  lemma {:induction false} PushAllSettles(db: Db, dev: Device, members: seq<nat>)
    requires Sound(db) && Agrees(db, dev) && NoRepeats(members) && forall m :: m in members ==> Pending(db, m)
    ensures var (after, now) := PushAll(db, dev, Tasks(db, members));
      after == Settled(db, Elements(members)) && Sound(after) && Agrees(after, now)
  {
    if members == [] {
      SettleNone(db);
      assert Elements(members) == {};
    } else {
      var n := |members| - 1;
      var rest, m := members[..n], members[n];
      LastDistinct(members, rest, m);
      PushAllSettles(db, dev, rest);
      LastPushed(db, dev, members, rest, m);
      SettleStep(db, PushAll(db, dev, Tasks(db, rest)).1, Elements(rest), m);
    }
  }

  lemma LastDistinct(members: seq<nat>, rest: seq<nat>, m: nat)
    requires NoRepeats(members) && members == rest + [m]
    ensures NoRepeats(rest) && m !in rest && Elements(members) == Elements(rest) + {m}
  {
    assert members[|rest|] == m && forall i :: 0 <= i < |rest| ==> rest[i] == members[i];
  }

  lemma LastPushed(db: Db, dev: Device, members: seq<nat>, rest: seq<nat>, m: nat)
    requires members == rest + [m] && forall x :: x in members ==> Pending(db, x)
    ensures forall x :: x in rest ==> Pending(db, x)
    ensures var (middle, held) := PushAll(db, dev, Tasks(db, rest));
      PushAll(db, dev, Tasks(db, members)) == (Succeed(middle, TaskOf(db, m)), Push(held, TaskOf(db, m)))
  {
    assert Tasks(db, members)[..|rest|] == Tasks(db, rest);
  }

  lemma SettleStep(db: Db, dev: Device, ids: set<nat>, m: nat)
    requires Sound(db) && Pending(db, m) && m !in ids && Sound(Settled(db, ids)) && Agrees(Settled(db, ids), dev)
    ensures var task, middle := TaskOf(db, m), Settled(db, ids);
      && Succeed(middle, task) == Settled(db, ids + {m})
      && Sound(Succeed(middle, task)) && Agrees(Succeed(middle, task), Push(dev, task))
  {
    var middle := Settled(db, ids);
    SettledTask(db, ids, m);
    SettleOne(db, ids, m);
    PushOneAgrees(middle, dev, m);
    SucceedSound(middle, m);
  }

  /** The tables say what a device that agrees with them holds. */
  lemma DeviceDetermined(db: Db, v: Device, u: Device)
    requires Agrees(db, v) && Agrees(db, u)
    ensures v == u
  {
    forall key | key in v
      ensures key in u && u[key] == v[key]
    {
      HeldByBoth(db, v, u, key);
    }
    forall key | key in u
      ensures key in v
    {
      HeldByBoth(db, u, v, key);
    }
  }

  lemma HeldByBoth(db: Db, v: Device, u: Device, key: DeviceKey)
    requires Agrees(db, v) && Agrees(db, u) && key in v
    ensures key in u && u[key] == v[key]
  {
    assert Holds(v, key, v[key]);
    assert Holds(u, key, v[key]);
  }

  lemma SettleNone(db: Db)
    requires Sound(db)
    ensures Settled(db, {}) == db
  {
    assert Settled(db, {}).members == db.members && Settled(db, {}).tracks == db.tracks;
    forall g | g in db.groups
      ensures Populated(db.members, g)
    {
      assert HasMember(db, g);
    }
    assert Settled(db, {}).groups == db.groups;
  }

  /** The order of one host's tasks does not matter, to the tables or the device. */
  lemma OrderIrrelevant(db: Db, dev: Device, some: seq<nat>, other: seq<nat>)
    requires Sound(db) && Agrees(db, dev) && NoRepeats(some) && NoRepeats(other) && Elements(some) == Elements(other)
    requires (forall m :: m in some ==> Pending(db, m)) && forall m :: m in other ==> Pending(db, m)
    ensures PushAll(db, dev, Tasks(db, some)) == PushAll(db, dev, Tasks(db, other))
  {
    PushAllSettles(db, dev, some);
    PushAllSettles(db, dev, other);
    var (a, v) := PushAll(db, dev, Tasks(db, some));
    var (b, u) := PushAll(db, dev, Tasks(db, other));
    DeviceDetermined(a, v, u);
  }

  /** The tasks of a host touch pairwise distinct keys of its device. */
  lemma TasksDistinct(db: Db, host: string, m: nat, n: nat)
    requires Sound(db) && m in PendingOn(db, host) && n in PendingOn(db, host) && m != n
    ensures TaskOf(db, m).key != TaskOf(db, n).key
  {
    assert !SameKey(db, m, n);
  }

  /** Pushing everything pending on a host leaves nothing pending there, and the
      device holding the key of each synchronized member with its group's address. */
  lemma PushHostConverges(db: Db, dev: Device, host: string, members: seq<nat>)
    requires Sound(db) && Agrees(db, dev) && NoRepeats(members) && Elements(members) == PendingOn(db, host)
    requires forall m :: m in members ==> Pending(db, m)
    ensures var (after, now) := PushAll(db, dev, Tasks(db, members));
      && Sound(after) && Agrees(after, now) && PendingOn(after, host) == {}
      && forall m :: m in after.members && after.members[m].at.host == host && !after.members[m].status.Skipped? ==>
        after.members[m].status.Synchronized? && Holds(now, KeyOf(after.members[m].at, GroupOf(after, m)), GroupOf(after, m).vip)
  {
    PushAllSettles(db, dev, members);
    var (after, now) := PushAll(db, dev, Tasks(db, members));
    forall m | m in after.members && after.members[m].at.host == host
      ensures !after.members[m].status.Pending()
    {
      assert db.members[m].status.Pending() ==> m in PendingOn(db, host);
      assert m in Elements(members) <==> m in PendingOn(db, host);
    }
    forall m | m in after.members && after.members[m].at.host == host && !after.members[m].status.Skipped?
      ensures Holds(now, KeyOf(after.members[m].at, GroupOf(after, m)), GroupOf(after, m).vip)
    {
      assert InstalledBy(after, m, KeyOf(after.members[m].at, GroupOf(after, m)), GroupOf(after, m).vip);
      assert Installed(after, KeyOf(after.members[m].at, GroupOf(after, m)), GroupOf(after, m).vip);
    }
  }

  // ---------------------------------------------------------------------
  // Runs with push and verification as one step
  // ---------------------------------------------------------------------

  datatype Step = Saving(p: GroupInput) | Marking(group: nat) | Cancelling(group: nat) | Pushing(members: seq<nat>)

  predicate Pushable(db: Db, members: seq<nat>) {
    (forall i, j :: 0 <= i < j < |members| ==> members[i] != members[j]) && forall m :: m in members ==> Pending(db, m)
  }

  /** A push takes any pending members of any hosts, in any order. */
  ghost function Do(db: Db, dev: Device, inventory: Inventory, s: Step): (Db, Device) {
    match s
    case Saving(p) => (if SaveGroup(db, inventory, p).Some? then SaveGroup(db, inventory, p).value else db, dev)
    case Marking(g) => (MarkGroup(db, g), dev)
    case Cancelling(g) => (CancelGroup(db, g), dev)
    case Pushing(members) => if Pushable(db, members) then PushAll(db, dev, Tasks(db, members)) else (db, dev)
  }

  ghost function DoAll(inventory: Inventory, steps: seq<Step>): (Db, Device) {
    if steps == [] then (EMPTY, map[])
    else
      var (db, dev) := DoAll(inventory, steps[..|steps| - 1]);
      Do(db, dev, inventory, steps[|steps| - 1])
  }

  /** Rows that keep their key and whether they were once synchronized keep the agreement. */
  lemma AgreesKept(db: Db, dev: Device, after: Db)
    requires Linked(db) && Linked(after) && Agrees(db, dev)
    requires forall m :: m in db.members && OnceSynchronized(db.members[m]) ==> m in after.members
    requires forall m :: m in after.members && OnceSynchronized(after.members[m]) ==> m in db.members
    requires forall m :: m in db.members && m in after.members ==>
      (OnceSynchronized(db.members[m]) <==> OnceSynchronized(after.members[m]))
    requires forall m :: m in db.members && m in after.members ==>
      after.members[m].at == db.members[m].at && GroupOf(after, m) == GroupOf(db, m)
    ensures Agrees(after, dev)
  {
    forall key, vip
      ensures Installed(db, key, vip) <==> Installed(after, key, vip)
    {
      if m :| InstalledBy(db, m, key, vip) {
        assert InstalledBy(after, m, key, vip);
      }
      if m :| InstalledBy(after, m, key, vip) {
        assert InstalledBy(db, m, key, vip);
      }
    }
  }

  lemma SavingAgrees(db: Db, dev: Device, inventory: Inventory, p: GroupInput)
    requires Sound(db) && Agrees(db, dev) && SaveGroup(db, inventory, p).Some?
    ensures Agrees(SaveGroup(db, inventory, p).value, dev)
  {
    SaveSound(db, inventory, p);
    SaveFrames(db, inventory, p);
    AgreesKept(db, dev, SaveGroup(db, inventory, p).value);
  }

  lemma MarkingAgrees(db: Db, dev: Device, g: nat)
    requires Sound(db) && Agrees(db, dev)
    ensures Sound(MarkGroup(db, g)) && Agrees(MarkGroup(db, g), dev)
  {
    MarkSound(db, g);
    AgreesKept(db, dev, MarkGroup(db, g));
  }

  lemma CancellingAgrees(db: Db, dev: Device, g: nat)
    requires Sound(db) && Agrees(db, dev)
    ensures Sound(CancelGroup(db, g)) && Agrees(CancelGroup(db, g), dev)
  {
    CancelSound(db, g);
    AgreesKept(db, dev, CancelGroup(db, g));
  }

  lemma StepAgrees(db: Db, dev: Device, inventory: Inventory, s: Step)
    requires Sound(db) && Agrees(db, dev)
    ensures var (after, now) := Do(db, dev, inventory, s);
      Sound(after) && Agrees(after, now)
  {
    match s
    case Saving(p) =>
      if SaveGroup(db, inventory, p).Some? {
        SavingAgrees(db, dev, inventory, p);
        SaveSound(db, inventory, p);
      }
    case Marking(g) => MarkingAgrees(db, dev, g);
    case Cancelling(g) => CancellingAgrees(db, dev, g);
    case Pushing(members) =>
      if Pushable(db, members) {
        PushAllSettles(db, dev, members);
      }
  }

  /** In every such run a key is on a device with a virtual address exactly when a
      member of a group of that address is synchronized, or marked for deletion after
      having been synchronized. */
  lemma {:induction false} EveryRunAgrees(inventory: Inventory, steps: seq<Step>)
    ensures var (db, dev) := DoAll(inventory, steps);
      Sound(db) && Agrees(db, dev)
  {
    if steps != [] {
      var (db, dev) := DoAll(inventory, steps[..|steps| - 1]);
      EveryRunAgrees(inventory, steps[..|steps| - 1]);
      StepAgrees(db, dev, inventory, steps[|steps| - 1]);
    }
  }
}
