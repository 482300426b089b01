// Runs of edits and pushes: what the devices hold against what the tables say.

module AclPush {
  import opened Common
  import opened AclLists
  import opened AclTables
  import opened AclEdits

  /** A list is known to its device by name. */
  datatype ListName = ListName(host: string, name: string)

  type Devices = map<ListName, ListState>

  function On(dev: Devices, list: ListName): ListState {
    if list in dev then dev[list] else ABSENT
  }

  datatype Command = Command(list: ListName, op: Op)

  function Exec(dev: Devices, cmds: seq<Command>): Devices {
    if cmds == [] then dev
    else
      var before := Exec(dev, cmds[..|cmds| - 1]);
      var c := cmds[|cmds| - 1];
      before[c.list := Step(On(before, c.list), c.op)]
  }

  /** The commands a list receives from a batch. */
  function Received(cmds: seq<Command>, list: ListName): seq<Op> {
    if cmds == [] then []
    else
      var rest := Received(cmds[..|cmds| - 1], list);
      var c := cmds[|cmds| - 1];
      if c.list == list then rest + [c.op] else rest
  }

  /** Lists are independent: each one ends up as its own commands leave it. */
  lemma {:induction false} ExecByList(dev: Devices, cmds: seq<Command>, list: ListName)
    ensures On(Exec(dev, cmds), list) == Run(On(dev, list), Received(cmds, list))
  {
    if cmds != [] {
      var n := |cmds| - 1;
      ExecByList(dev, cmds[..n], list);
      var rest := Received(cmds[..n], list);
      if cmds[n].list == list {
        assert (rest + [cmds[n].op])[..|rest|] == rest;
      }
    }
  }

  lemma {:induction false} ReceivedAppend(a: seq<Command>, b: seq<Command>, list: ListName)
    ensures Received(a + b, list) == Received(a, list) + Received(b, list)
  {
    if b == [] {
      assert a + b == a;
    } else {
      ReceivedAppend(a, b[..|b| - 1], list);
      assert (a + b)[..|a + b| - 1] == a + b[..|b| - 1];
    }
  }

  lemma {:induction false} ReceivedFrom(cmds: seq<Command>, list: ListName)
    ensures forall op :: op in Received(cmds, list) <==> Command(list, op) in cmds
  {
    if cmds != [] {
      var n := |cmds| - 1;
      ReceivedFrom(cmds[..n], list);
      assert cmds == cmds[..n] + [cmds[n]];
      assert cmds[n] == Command(cmds[n].list, cmds[n].op);
    }
  }

  function Tagged(list: ListName, ops: seq<Op>): (r: seq<Command>)
    ensures |r| == |ops| && forall i :: 0 <= i < |ops| ==> r[i] == Command(list, ops[i])
  {
    seq(|ops|, i requires 0 <= i < |ops| => Command(list, ops[i]))
  }

  lemma {:induction false} ReceivedTagged(list: ListName, ops: seq<Op>, other: ListName)
    ensures Received(Tagged(list, ops), other) == if list == other then ops else []
  {
    if ops != [] {
      var n := |ops| - 1;
      ReceivedTagged(list, ops[..n], other);
      assert Tagged(list, ops)[..n] == Tagged(list, ops[..n]);
      assert ops[..n] + [ops[n]] == ops;
    }
  }

  // ---------------------------------------------------------------------
  // The commands for one host
  // ---------------------------------------------------------------------

  function NameOf(row: AclRow): ListName {
    ListName(row.host, row.name)
  }

  ghost function CommandsFor(db: Db, acl: nat): seq<Op>
    requires acl in db.acls
  {
    Commands(db.acls[acl].kind, db.acls[acl].status.PendingDelete?, ListRows(db, acl))
  }

  ghost function ListsToPush(db: Db, host: string): set<nat> {
    set a | a in db.acls && db.acls[a].host == host && NeedsPush(db, a)
  }

  ghost function Batch(db: Db, acls: seq<nat>): seq<Command>
    requires forall a :: a in acls ==> a in db.acls
  {
    if acls == [] then []
    else
      var last := acls[|acls| - 1];
      Batch(db, acls[..|acls| - 1]) + Tagged(NameOf(db.acls[last]), CommandsFor(db, last))
  }

  ghost function HostTasks(db: Db, host: string): seq<nat> {
    Ordered(map a | a in db.acls :: a, ListsToPush(db, host))
  }

  /** Everything sent to a host in one push, list by list. */
  ghost function HostBatch(db: Db, host: string): seq<Command> {
    Batch(db, HostTasks(db, host))
  }

  lemma {:induction false} BatchReceived(db: Db, acls: seq<nat>, acl: nat)
    requires NamesUnique(db) && NoRepeats(acls) && acl in db.acls && forall a :: a in acls ==> a in db.acls
    ensures Received(Batch(db, acls), NameOf(db.acls[acl])) == if acl in acls then CommandsFor(db, acl) else []
  {
    if acls != [] {
      var n := |acls| - 1;
      var last := acls[n];
      assert acls == acls[..n] + [last];
      BatchReceived(db, acls[..n], acl);
      ReceivedAppend(Batch(db, acls[..n]), Tagged(NameOf(db.acls[last]), CommandsFor(db, last)), NameOf(db.acls[acl]));
      ReceivedTagged(NameOf(db.acls[last]), CommandsFor(db, last), NameOf(db.acls[acl]));
      assert acl in acls[..n] ==> acl != last;
    }
  }

  lemma {:induction false} BatchForeign(db: Db, acls: seq<nat>, list: ListName)
    requires forall a :: a in acls ==> a in db.acls && NameOf(db.acls[a]) != list
    ensures Received(Batch(db, acls), list) == []
  {
    if acls != [] {
      var last := acls[|acls| - 1];
      BatchForeign(db, acls[..|acls| - 1], list);
      ReceivedAppend(Batch(db, acls[..|acls| - 1]), Tagged(NameOf(db.acls[last]), CommandsFor(db, last)), list);
      ReceivedTagged(NameOf(db.acls[last]), CommandsFor(db, last), list);
    }
  }

  lemma HostReceived(db: Db, host: string, acl: nat)
    requires NamesUnique(db) && acl in db.acls
    ensures Received(HostBatch(db, host), NameOf(db.acls[acl])) == if acl in ListsToPush(db, host) then CommandsFor(db, acl) else []
  {
    BatchReceived(db, HostTasks(db, host), acl);
  }

  lemma HostForeign(db: Db, host: string, list: ListName)
    requires forall a :: a in db.acls ==> NameOf(db.acls[a]) != list
    ensures Received(HostBatch(db, host), list) == []
  {
    BatchForeign(db, HostTasks(db, host), list);
  }

  // ---------------------------------------------------------------------
  // Worlds
  // ---------------------------------------------------------------------

  datatype World = World(db: Db, dev: Devices)

  ghost predicate ListInv(w: World, acl: nat)
    requires acl in w.db.acls
  {
    var st := On(w.dev, NameOf(w.db.acls[acl]));
    Backed(w.db.acls[acl].kind, ListRows(w.db, acl), st) && Settled(w.db.acls[acl].kind, ListRows(w.db, acl), st)
  }

  predicate Called(db: Db, acl: nat, list: ListName) {
    acl in db.acls && NameOf(db.acls[acl]) == list
  }

  ghost predicate HasList(db: Db, list: ListName) {
    exists a :: Called(db, a, list)
  }

  /** Tables and device agree on the list of one name, up to what a push has still
      to do. Nothing is asked of lists of other names. */
  ghost predicate Inv(w: World, ifaces: Inventory, list: ListName) {
    && Sound(w.db, ifaces)
    && (forall a :: Called(w.db, a, list) ==> ListInv(w, a))
    && (!HasList(w.db, list) ==> On(w.dev, list) == ABSENT)
  }

  /** Its rules can be rendered, unless it awaits deletion. */
  ghost predicate RenderableAt(db: Db, list: ListName) {
    forall a :: Called(db, a, list) && !db.acls[a].status.PendingDelete? ==> Renderable(db.acls[a].kind, ListRows(db, a))
  }

  /** The device shows exactly its visible rules with none pending; nothing is left
      under the name of a list that is gone. */
  ghost predicate Converged(w: World, list: ListName) {
    && (forall a :: Called(w.db, a, list) ==>
      Shows(w.db.acls[a].kind, ListRows(w.db, a), On(w.dev, list)) && PendingIds(ListRows(w.db, a)) == {})
    && (!HasList(w.db, list) ==> On(w.dev, list) == ABSENT)
  }

  // Edits

  ghost predicate RulesPersist(db: Db, after: Db, acl: nat)
    requires acl in db.acls && acl in after.acls
  {
    forall id :: id in ListRows(db, acl) ==> id in ListRows(after, acl) && SameRule(id, ListRows(db, acl)[id], ListRows(after, acl)[id])
  }

  /** The rules of the list under one name are untouched, or wholly pending. */
  ghost predicate Edits(db: Db, after: Db, list: ListName) {
    forall a :: Called(after, a, list) ==>
      || AllPending(ListRows(after, a))
      || (Called(db, a, list) && after.acls[a].kind == db.acls[a].kind && ListRows(after, a) == ListRows(db, a))
  }

  /** The list is still there, of its type, and its rules are. */
  ghost predicate Keeps(db: Db, after: Db, list: ListName) {
    forall a :: Called(db, a, list) ==>
      Called(after, a, list) && after.acls[a].kind == db.acls[a].kind && RulesPersist(db, after, a)
  }

  /** Such an edit keeps the invariant where it keeps the list, or where the device
      holds nothing under the name. */
  lemma EditKeeps(w: World, ifaces: Inventory, after: Db, list: ListName)
    requires Inv(w, ifaces, list) && Sound(after, ifaces) && Edits(w.db, after, list)
    requires Keeps(w.db, after, list) || On(w.dev, list) == ABSENT
    ensures Inv(World(after, w.dev), ifaces, list)
  {
    forall a | Called(after, a, list)
      ensures ListInv(World(after, w.dev), a)
    {
      if Keeps(w.db, after, list) && HasList(w.db, list) {
        OldListKept(w, ifaces, after, list, a);
      } else {
        AbsentListKept(w, ifaces, after, list, a);
      }
    }
    if HasList(w.db, list) && Keeps(w.db, after, list) {
      var a :| Called(w.db, a, list);
      assert Called(after, a, list);
    }
  }

  lemma OldListKept(w: World, ifaces: Inventory, after: Db, list: ListName, a: nat)
    requires Inv(w, ifaces, list) && NamesUnique(after) && Edits(w.db, after, list) && Keeps(w.db, after, list)
    requires HasList(w.db, list) && Called(after, a, list)
    ensures ListInv(World(after, w.dev), a)
  {
    var b :| Called(w.db, b, list);
    assert Called(after, b, list) && a == b;
    assert ListInv(w, a) && RulesPersist(w.db, after, a);
    OldListCarries(after.acls[a].kind, ListRows(w.db, a), ListRows(after, a), On(w.dev, list));
  }

  lemma OldListCarries(kind: Kind, rows: Rows, later: Rows, st: ListState)
    requires Backed(kind, rows, st) && Settled(kind, rows, st)
    requires forall id :: id in rows ==> id in later && SameRule(id, rows[id], later[id])
    requires later == rows || AllPending(later)
    ensures Backed(kind, later, st) && Settled(kind, later, st)
  {
    AccountedCarries(kind, rows, rows.Keys, st, later, later.Keys);
  }

  lemma AbsentListKept(w: World, ifaces: Inventory, after: Db, list: ListName, a: nat)
    requires Inv(w, ifaces, list) && Edits(w.db, after, list) && On(w.dev, list) == ABSENT && Called(after, a, list)
    ensures ListInv(World(after, w.dev), a)
  {
    if !AllPending(ListRows(after, a)) {
      assert ListInv(w, a);
    }
  }

  // Failed pushes

  /** Commands that a failed push left applied: the device takes what it accepts,
      also after a command it rejects. */
  ghost predicate PartOfBatch(db: Db, host: string, cmds: seq<Command>) {
    forall c :: c in cmds ==> c in HostBatch(db, host)
  }

  /** A push that fails, whichever of its commands were applied, keeps the invariant
      of every list. */
  lemma FailedPushKeeps(w: World, ifaces: Inventory, host: string, cmds: seq<Command>, list: ListName)
    requires Inv(w, ifaces, list) && PartOfBatch(w.db, host, cmds)
    ensures Inv(w.(dev := Exec(w.dev, cmds)), ifaces, list)
  {
    var after := w.(dev := Exec(w.dev, cmds));
    ExecByList(w.dev, cmds, list);
    PartReceives(w.db, host, cmds, list);
    forall a | Called(w.db, a, list)
      ensures ListInv(after, a)
    {
      assert ListInv(w, a);
      PartOfList(w, ifaces, host, a, Received(cmds, list));
    }
    if !HasList(w.db, list) {
      ForeignKept(w, host, cmds, list);
    }
  }

  lemma PartOfList(w: World, ifaces: Inventory, host: string, a: nat, ops: seq<Op>)
    requires Sound(w.db, ifaces) && a in w.db.acls && ListInv(w, a)
    requires forall op :: op in ops ==> op in Received(HostBatch(w.db, host), NameOf(w.db.acls[a]))
    ensures var kind, rows, st := w.db.acls[a].kind, ListRows(w.db, a), Run(On(w.dev, NameOf(w.db.acls[a])), ops);
      Backed(kind, rows, st) && Settled(kind, rows, st)
  {
    var row := w.db.acls[a];
    HostReceived(w.db, host, a);
    CommandsLegitimate(row.kind, row.status.PendingDelete?, ListRows(w.db, a), On(w.dev, NameOf(row)));
    PartialPushKeeps(row.kind, ListRows(w.db, a), On(w.dev, NameOf(row)), ops);
  }

  lemma PartReceives(db: Db, host: string, cmds: seq<Command>, list: ListName)
    requires PartOfBatch(db, host, cmds)
    ensures forall op :: op in Received(cmds, list) ==> op in Received(HostBatch(db, host), list)
  {
    ReceivedFrom(cmds, list);
    ReceivedFrom(HostBatch(db, host), list);
  }

  /** A push says nothing about names that no list has. */
  lemma ForeignKept(w: World, host: string, cmds: seq<Command>, list: ListName)
    requires !HasList(w.db, list) && PartOfBatch(w.db, host, cmds)
    ensures On(Exec(w.dev, cmds), list) == On(w.dev, list)
  {
    assert forall a :: a in w.db.acls ==> !Called(w.db, a, list);
    HostForeign(w.db, host, list);
    ReceivedFrom(HostBatch(w.db, host), list);
    forall c | c in cmds
      ensures c.list != list
    {
      assert c == Command(c.list, c.op) && c in HostBatch(w.db, host);
    }
    NothingReceived(cmds, list);
    ExecByList(w.dev, cmds, list);
  }

  lemma {:induction false} NothingReceived(cmds: seq<Command>, list: ListName)
    requires forall c :: c in cmds ==> c.list != list
    ensures Received(cmds, list) == []
  {
    if cmds != [] {
      NothingReceived(cmds[..|cmds| - 1], list);
    }
  }

  // Successful pushes

  /** What the tasks of a push track, together. */
  ghost function TrackAll(db: Db, acls: seq<nat>): Tracking
    requires forall a :: a in acls ==> a in db.acls
  {
    if acls == [] then NOTHING
    else TrackAll(db, acls[..|acls| - 1]).Union(Track(db, acls[|acls| - 1]))
  }

  ghost function HostTracking(db: Db, host: string): Tracking {
    TrackAll(db, HostTasks(db, host))
  }

  ghost function PushHost(w: World, host: string): World {
    World(Apply(w.db, HostTracking(w.db, host)), Exec(w.dev, HostBatch(w.db, host)))
  }

  lemma RuleTrackedBy(db: Db, a: nat, k: Kind, id: nat)
    requires id in db.rules.Get(k) && a in db.acls
    ensures var row := db.rules.Get(k)[id];
      var mine := row.aclId == a && db.acls[a].kind == k && row.status.Pending();
      && (RuleKey(k, id) in Track(db, a).ruleAdd <==> mine && !Removed(db, a) && !row.status.PendingDelete?)
      && (RuleKey(k, id) in Track(db, a).ruleDel <==> mine && (Removed(db, a) || row.status.PendingDelete?))
  {
    TrackedIds(ListRows(db, a), db.acls[a].status.PendingDelete?);
  }

  ghost predicate TracksRule(db: Db, tracked: Tracking, acls: seq<nat>, k: Kind, id: nat)
    requires id in db.rules.Get(k) && forall a :: a in acls ==> a in db.acls
  {
    var row := db.rules.Get(k)[id];
    var mine := row.aclId in acls && db.acls[row.aclId].kind == k && row.status.Pending();
    && (RuleKey(k, id) in tracked.ruleAdd <==> mine && !Removed(db, row.aclId) && !row.status.PendingDelete?)
    && (RuleKey(k, id) in tracked.ruleDel <==> mine && (Removed(db, row.aclId) || row.status.PendingDelete?))
  }

  lemma RuleTrackedNext(db: Db, before: Tracking, last: Tracking, acls: seq<nat>, a: nat, k: Kind, id: nat)
    requires id in db.rules.Get(k) && a in db.acls && forall b :: b in acls ==> b in db.acls
    requires TracksRule(db, before, acls, k, id) && TracksRule(db, last, [a], k, id)
    ensures forall b :: b in acls + [a] ==> b in db.acls
    ensures TracksRule(db, before.Union(last), acls + [a], k, id)
  {
  }

  lemma {:induction false} RuleTrackedIn(db: Db, acls: seq<nat>, k: Kind, id: nat)
    requires id in db.rules.Get(k) && forall a :: a in acls ==> a in db.acls
    ensures TracksRule(db, TrackAll(db, acls), acls, k, id)
  {
    if acls != [] {
      var n := |acls| - 1;
      RuleTrackedIn(db, acls[..n], k, id);
      RuleTrackedBy(db, acls[n], k, id);
      RuleTrackedNext(db, TrackAll(db, acls[..n]), Track(db, acls[n]), acls[..n], acls[n], k, id);
      assert acls == acls[..n] + [acls[n]];
    }
  }

  lemma BindingTrackedBy(db: Db, a: nat, b: nat)
    requires b in db.bindings && a in db.acls
    ensures b in Track(db, a).bindAdd <==> db.bindings[b].aclId == a && db.bindings[b].status.PendingApply?
    ensures b in Track(db, a).bindDel <==> db.bindings[b].aclId == a && db.bindings[b].status.PendingDelete?
  {
  }

  lemma {:induction false} BindingTrackedIn(db: Db, acls: seq<nat>, b: nat)
    requires b in db.bindings && forall a :: a in acls ==> a in db.acls
    ensures var row := db.bindings[b];
      && (b in TrackAll(db, acls).bindAdd <==> row.aclId in acls && row.status.PendingApply?)
      && (b in TrackAll(db, acls).bindDel <==> row.aclId in acls && row.status.PendingDelete?)
  {
    if acls != [] {
      var n := |acls| - 1;
      BindingTrackedIn(db, acls[..n], b);
      BindingTrackedBy(db, acls[n], b);
      assert acls == acls[..n] + [acls[n]];
    }
  }

  lemma AclTrackedBy(db: Db, b: nat, a: nat)
    requires a in db.acls && b in db.acls
    ensures a in Track(db, b).aclAdd <==> a == b && db.acls[a].status.PendingApply?
    ensures a in Track(db, b).aclDel <==> a == b && db.acls[a].status.PendingDelete?
  {
  }

  lemma {:induction false} AclTrackedIn(db: Db, acls: seq<nat>, a: nat)
    requires a in db.acls && forall b :: b in acls ==> b in db.acls
    ensures a in TrackAll(db, acls).aclAdd <==> a in acls && db.acls[a].status.PendingApply?
    ensures a in TrackAll(db, acls).aclDel <==> a in acls && db.acls[a].status.PendingDelete?
  {
    if acls != [] {
      var n := |acls| - 1;
      AclTrackedIn(db, acls[..n], a);
      AclTrackedBy(db, acls[n], a);
      assert acls == acls[..n] + [acls[n]];
    }
  }

  /** Whatever is pending under a list makes its host's push collect the list. */
  lemma PendingCollected(db: Db, host: string, a: nat)
    requires a in db.acls && db.acls[a].host == host
    ensures db.acls[a].status.Pending() ==> a in HostTasks(db, host)
    ensures forall k: Kind, id :: id in db.rules.Get(k) && db.rules.Get(k)[id].aclId == a && db.rules.Get(k)[id].status.Pending() ==>
      a in HostTasks(db, host)
    ensures forall b :: b in db.bindings && db.bindings[b].aclId == a && db.bindings[b].status.Pending() ==> a in HostTasks(db, host)
  {
    forall k: Kind, id | id in db.rules.Get(k) && db.rules.Get(k)[id].aclId == a && db.rules.Get(k)[id].status.Pending()
      ensures NeedsPush(db, a)
    {
      assert id in PendingIds(RowsOf(db, k, a));
    }
    forall b | b in db.bindings && db.bindings[b].aclId == a && db.bindings[b].status.Pending()
      ensures NeedsPush(db, a)
    {
      assert b in PendingBindings(db, a);
    }
  }

  lemma AppliedAcls(db: Db, host: string)
    ensures var after := Apply(db, HostTracking(db, host));
      && (forall a :: a in after.acls <==> a in db.acls && !(db.acls[a].host == host && db.acls[a].status.PendingDelete?))
      && (forall a :: a in after.acls ==> NameOf(after.acls[a]) == NameOf(db.acls[a]) && after.acls[a].kind == db.acls[a].kind)
      && (forall a :: a in after.acls ==>
        after.acls[a].status == if db.acls[a].host == host then Settle(db.acls[a].status) else db.acls[a].status)
  {
    forall a | a in db.acls
      ensures a in HostTracking(db, host).aclDel <==> db.acls[a].host == host && db.acls[a].status.PendingDelete?
      ensures a in HostTracking(db, host).aclAdd <==> db.acls[a].host == host && db.acls[a].status.PendingApply?
    {
      AclTrackedIn(db, HostTasks(db, host), a);
      if db.acls[a].host == host { PendingCollected(db, host, a); }
    }
  }

  lemma AppliedBindings(db: Db, host: string)
    requires forall b :: b in db.bindings ==> db.bindings[b].aclId in db.acls
    ensures var after := Apply(db, HostTracking(db, host));
      && (forall b :: b in after.bindings <==>
        b in db.bindings && !(db.acls[db.bindings[b].aclId].host == host && db.bindings[b].status.PendingDelete?))
      && (forall b :: b in after.bindings ==>
        if db.acls[db.bindings[b].aclId].host == host
        then after.bindings[b] == db.bindings[b].(status := Settle(db.bindings[b].status))
        else after.bindings[b] == db.bindings[b])
  {
    forall b | b in db.bindings
      ensures b in HostTracking(db, host).bindAdd <==> db.acls[db.bindings[b].aclId].host == host && db.bindings[b].status.PendingApply?
      ensures b in HostTracking(db, host).bindDel <==> db.acls[db.bindings[b].aclId].host == host && db.bindings[b].status.PendingDelete?
    {
      BindingTrackedIn(db, HostTasks(db, host), b);
      if db.acls[db.bindings[b].aclId].host == host { PendingCollected(db, host, db.bindings[b].aclId); }
    }
  }

  lemma AppliedRule(db: Db, host: string, k: Kind, id: nat)
    requires id in db.rules.Get(k)
    ensures var row := db.rules.Get(k)[id];
      var after := Apply(db, HostTracking(db, host)).rules.Get(k);
      var mine := row.aclId in db.acls && db.acls[row.aclId].host == host && db.acls[row.aclId].kind == k;
      && (id in after <==> !(mine && row.status.PendingDelete?))
      && (id in after ==> after[id] == if mine && !Removed(db, row.aclId) then row.(status := Settle(row.status)) else row)
  {
    RuleTrackedIn(db, HostTasks(db, host), k, id);
    var a := db.rules.Get(k)[id].aclId;
    if a in db.acls && db.acls[a].host == host { PendingCollected(db, host, a); }
  }

  /** A successful push keeps the tables sound. */
  lemma PushSound(db: Db, ifaces: Inventory, host: string)
    requires Sound(db, ifaces)
    ensures Sound(Apply(db, HostTracking(db, host)), ifaces)
  {
    AppliedAcls(db, host);
    AppliedBindings(db, host);
    AppliedIdsFresh(db, ifaces, host);
    AppliedDeletedTogether(db, ifaces, host);
    AppliedOthersDeleted(db, ifaces, host);
  }

  lemma AppliedIdsFresh(db: Db, ifaces: Inventory, host: string)
    requires Sound(db, ifaces)
    ensures IdsFresh(Apply(db, HostTracking(db, host)))
  {
    var after := Apply(db, HostTracking(db, host));
    AppliedBindings(db, host);
    forall k: Kind, id | id in after.rules.Get(k)
      ensures id in db.rules.Get(k) && after.rules.Get(k)[id].aclId == db.rules.Get(k)[id].aclId
    {
      assert after.rules.Get(k) == ApplyRules(db.rules.Get(k), k, HostTracking(db, host));
    }
  }

  lemma AppliedDeletedTogether(db: Db, ifaces: Inventory, host: string)
    requires Sound(db, ifaces)
    ensures DeletedTogether(Apply(db, HostTracking(db, host)))
  {
    var after := Apply(db, HostTracking(db, host));
    AppliedBindingsDeleted(db, ifaces, host);
    forall k: Kind, id | id in after.rules.Get(k) && Removed(after, after.rules.Get(k)[id].aclId)
      ensures after.rules.Get(k)[id].status.PendingDelete?
    {
      AppliedRuleDeleted(db, ifaces, host, k, id);
    }
  }

  lemma AppliedRuleDeleted(db: Db, ifaces: Inventory, host: string, k: Kind, id: nat)
    requires Sound(db, ifaces)
    ensures var after := Apply(db, HostTracking(db, host));
      id in after.rules.Get(k) && Removed(after, after.rules.Get(k)[id].aclId) ==> after.rules.Get(k)[id].status.PendingDelete?
  {
    AppliedAcls(db, host);
    if id in db.rules.Get(k) {
      AppliedRule(db, host, k, id);
    }
  }

  lemma AppliedBindingsDeleted(db: Db, ifaces: Inventory, host: string)
    requires Sound(db, ifaces)
    ensures var after := Apply(db, HostTracking(db, host));
      forall b :: b in after.bindings && Removed(after, after.bindings[b].aclId) ==> after.bindings[b].status.PendingDelete?
  {
    var after := Apply(db, HostTracking(db, host));
    AppliedBindings(db, host);
    forall b | b in after.bindings && Removed(after, after.bindings[b].aclId)
      ensures after.bindings[b].status.PendingDelete?
    {
      RemovedBefore(db, host, db.bindings[b].aclId);
    }
  }

  /** A list still awaiting deletion after a push is on another host. */
  lemma RemovedBefore(db: Db, host: string, a: nat)
    requires Removed(Apply(db, HostTracking(db, host)), a)
    ensures Removed(db, a) && db.acls[a].host != host
  {
    AppliedAcls(db, host);
  }

  lemma AppliedOthersDeleted(db: Db, ifaces: Inventory, host: string)
    requires Sound(db, ifaces)
    ensures OthersDeleted(Apply(db, HostTracking(db, host)))
  {
    var after := Apply(db, HostTracking(db, host));
    AppliedAcls(db, host);
    forall k: Kind, id | id in after.rules.Get(k) && OtherKind(after, after.rules.Get(k)[id].aclId, k)
      ensures after.rules.Get(k)[id].status.PendingDelete?
    {
      assert id in db.rules.Get(k);
      AppliedRule(db, host, k, id);
    }
  }

  // A successful push, list by list

  lemma AppliedListRow(db: Db, host: string, a: nat, id: nat)
    requires a in db.acls && (db.acls[a].status.PendingDelete? ==> db.acls[a].host != host)
    requires id in ListRows(db, a) ==> !ListRows(db, a)[id].status.Skipped?
    ensures var rows, after := ListRows(db, a), RowsOf(Apply(db, HostTracking(db, host)), db.acls[a].kind, a);
      var expected := if db.acls[a].host == host then Advanced(rows) else rows;
      (id in after <==> id in expected) && (id in expected ==> after[id] == expected[id])
  {
    var kind := db.acls[a].kind;
    assert Apply(db, HostTracking(db, host)).rules.Get(kind) == ApplyRules(db.rules.Get(kind), kind, HostTracking(db, host));
    if id in db.rules.Get(kind) {
      AppliedRule(db, host, kind, id);
    }
  }

  lemma AppliedRowsOf(db: Db, host: string, a: nat)
    requires a in db.acls && (db.acls[a].status.PendingDelete? ==> db.acls[a].host != host)
    requires forall id :: id in ListRows(db, a) ==> !ListRows(db, a)[id].status.Skipped?
    ensures RowsOf(Apply(db, HostTracking(db, host)), db.acls[a].kind, a) ==
      if db.acls[a].host == host then Advanced(ListRows(db, a)) else ListRows(db, a)
  {
    forall id
      ensures var rows, after := ListRows(db, a), RowsOf(Apply(db, HostTracking(db, host)), db.acls[a].kind, a);
        var expected := if db.acls[a].host == host then Advanced(rows) else rows;
        (id in after <==> id in expected) && (id in expected ==> after[id] == expected[id])
    {
      AppliedListRow(db, host, a, id);
    }
  }

  lemma AppliedListRows(db: Db, ifaces: Inventory, host: string, a: nat)
    requires Sound(db, ifaces) && a in Apply(db, HostTracking(db, host)).acls
    requires forall id :: id in ListRows(db, a) ==> !ListRows(db, a)[id].status.Skipped?
    ensures ListRows(Apply(db, HostTracking(db, host)), a) ==
      if db.acls[a].host == host then Advanced(ListRows(db, a)) else ListRows(db, a)
  {
    AppliedAcls(db, host);
    AppliedRowsOf(db, host, a);
  }

  lemma PushedList(w: World, ifaces: Inventory, a: nat)
    requires Sound(w.db, ifaces) && a in w.db.acls && ListInv(w, a) && !w.db.acls[a].status.PendingDelete?
    requires Renderable(w.db.acls[a].kind, ListRows(w.db, a))
    ensures var after := PushHost(w, w.db.acls[a].host);
      && a in after.db.acls && ListInv(after, a)
      && Shows(after.db.acls[a].kind, ListRows(after.db, a), On(after.dev, NameOf(after.db.acls[a])))
      && PendingIds(ListRows(after.db, a)) == {}
  {
    var host, list := w.db.acls[a].host, NameOf(w.db.acls[a]);
    AppliedAcls(w.db, host);
    AppliedListRows(w.db, ifaces, host, a);
    var kind, rows, st := w.db.acls[a].kind, ListRows(w.db, a), On(w.dev, list);
    ExecByList(w.dev, HostBatch(w.db, host), list);
    HostReceived(w.db, host, a);
    if a !in ListsToPush(w.db, host) {
      NothingPending(w.db, a);
    }
    assert On(PushHost(w, host).dev, list) == Pushed(kind, rows, st);
    PushShows(kind, rows, st);
    AdvanceSettles(kind, rows, Pushed(kind, rows, st));
  }

  lemma NothingPending(db: Db, a: nat)
    requires a in db.acls && !NeedsPush(db, a)
    ensures CommandsFor(db, a) == []
  {
    var rows := ListRows(db, a);
    assert PendingIds(RowsOf(db, db.acls[a].kind, a)) == {};
    assert PendingQuery(rows) == [];
  }

  lemma OtherHostList(w: World, ifaces: Inventory, host: string, a: nat)
    requires Sound(w.db, ifaces) && a in w.db.acls && ListInv(w, a) && w.db.acls[a].host != host
    ensures a in PushHost(w, host).db.acls && ListInv(PushHost(w, host), a)
  {
    AppliedAcls(w.db, host);
    AppliedListRows(w.db, ifaces, host, a);
    ExecByList(w.dev, HostBatch(w.db, host), NameOf(w.db.acls[a]));
    HostReceived(w.db, host, a);
  }

  lemma GoneList(w: World, ifaces: Inventory, host: string, list: ListName)
    requires Inv(w, ifaces, list) && !HasList(PushHost(w, host).db, list)
    ensures On(PushHost(w, host).dev, list) == ABSENT
  {
    ExecByList(w.dev, HostBatch(w.db, host), list);
    if HasList(w.db, list) {
      var a :| Called(w.db, a, list);
      AppliedAcls(w.db, host);
      assert !Called(PushHost(w, host).db, a, list);
      RemovedListSent(w, host, a);
    } else {
      assert forall a :: a in w.db.acls ==> !Called(w.db, a, list);
      HostForeign(w.db, host, list);
    }
  }

  lemma RemovedListSent(w: World, host: string, a: nat)
    requires NamesUnique(w.db) && Removed(w.db, a) && w.db.acls[a].host == host
    ensures Run(On(w.dev, NameOf(w.db.acls[a])), Received(HostBatch(w.db, host), NameOf(w.db.acls[a]))) == ABSENT
  {
    HostReceived(w.db, host, a);
    RemovalSent(w.db, a);
    RunRemoval(On(w.dev, NameOf(w.db.acls[a])));
  }

  lemma RemovalSent(db: Db, a: nat)
    requires Removed(db, a)
    ensures NeedsPush(db, a) && CommandsFor(db, a) == [RemoveList]
  {
  }

  lemma RunRemoval(st: ListState)
    ensures Run(st, [RemoveList]) == ABSENT
  {
    assert Run(st, [RemoveList]) == Step(Run(st, []), RemoveList);
  }

  lemma CalledBefore(w: World, host: string, list: ListName, a: nat)
    requires Called(PushHost(w, host).db, a, list)
    ensures Called(w.db, a, list) && !(w.db.acls[a].host == host && w.db.acls[a].status.PendingDelete?)
  {
    AppliedAcls(w.db, host);
  }

  /** A successful push of any host keeps the invariant of a list, if the list is
      on another host or can be rendered. */
  lemma PushKeeps(w: World, ifaces: Inventory, host: string, list: ListName)
    requires Inv(w, ifaces, list) && (list.host == host ==> RenderableAt(w.db, list))
    ensures Inv(PushHost(w, host), ifaces, list)
  {
    PushSound(w.db, ifaces, host);
    forall a | Called(PushHost(w, host).db, a, list)
      ensures ListInv(PushHost(w, host), a)
    {
      CalledBefore(w, host, list, a);
      if list.host == host {
        PushedList(w, ifaces, a);
      } else {
        OtherHostList(w, ifaces, host, a);
      }
    }
    if !HasList(PushHost(w, host).db, list) {
      GoneList(w, ifaces, host, list);
    }
  }

  /** A successful push of its host leaves the device with exactly the visible rules
      of a list, whatever happened to the other lists of the host. */
  lemma PushConverges(w: World, ifaces: Inventory, list: ListName)
    requires Inv(w, ifaces, list) && RenderableAt(w.db, list)
    ensures Converged(PushHost(w, list.host), list)
  {
    var after := PushHost(w, list.host);
    forall a | Called(after.db, a, list)
      ensures Shows(after.db.acls[a].kind, ListRows(after.db, a), On(after.dev, list)) && PendingIds(ListRows(after.db, a)) == {}
    {
      CalledBefore(w, list.host, list, a);
      PushedList(w, ifaces, a);
    }
    if !HasList(after.db, list) {
      GoneList(w, ifaces, list.host, list);
    }
  }
}
