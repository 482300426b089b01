// FHRP groups, members and tracks: saving, marking for deletion, cancelling,
// and advancing a verified member.

module FhrpTables {
  import opened Common

  datatype Protocol = Hsrp | Vrrp | Glbp

  /** Router interfaces and switch SVIs live in different tables. */
  datatype EndpointKind = RouterPort | Svi

  datatype Endpoint = Endpoint(host: string, kind: EndpointKind, iface: nat)

  datatype Group = Group(protocol: Protocol, number: nat, vip: string)

  /** `restore` is delete_restore_status. */
  datatype Member = Member(fhrpId: nat, at: Endpoint, settings: string, status: SyncStatus, restore: Option<SyncStatus>)

  datatype Track = Track(memberId: nat, target: string, decrement: nat, status: SyncStatus, restore: Option<SyncStatus>)

  /** The tables; the counters are the AUTOINCREMENT sequences, never reused. */
  datatype Db = Db(
    groups: map<nat, Group>, members: map<nat, Member>, tracks: map<nat, Track>,
    nextGroup: nat, nextMember: nat, nextTrack: nat)

  const EMPTY := Db(map[], map[], map[], 1, 1, 1)

  /** Which host owns each interface; the triggers check members against it. */
  type Inventory = map<(EndpointKind, nat), string>

  // ---------------------------------------------------------------------
  // Saving
  // ---------------------------------------------------------------------

  datatype TrackInput = TrackInput(target: string, decrement: nat)
  datatype MemberInput = MemberInput(at: Endpoint, settings: string, tracks: seq<TrackInput>)
  datatype GroupInput = GroupInput(group: Group, members: seq<MemberInput>)

  predicate NumberAllowed(group: Group) {
    match group.protocol
    case Hsrp => group.number <= 4095
    case Vrrp => 1 <= group.number <= 255
    case Glbp => group.number <= 1023
  }

  predicate InputValid(p: GroupInput, inventory: Inventory) {
    && NumberAllowed(p.group)
    && 2 <= |p.members| <= 5
    && (forall i, j :: 0 <= i < j < |p.members| ==> p.members[i].at.host != p.members[j].at.host)
    && (forall i :: 0 <= i < |p.members| ==>
      (p.members[i].at.kind, p.members[i].at.iface) in inventory
      && inventory[(p.members[i].at.kind, p.members[i].at.iface)] == p.members[i].at.host)
  }

  predicate AsksHost(p: GroupInput, host: string) {
    exists i :: 0 <= i < |p.members| && p.members[i].at.host == host
  }

  predicate AsksEndpoint(p: GroupInput, at: Endpoint) {
    exists i :: 0 <= i < |p.members| && p.members[i].at == at
  }

  predicate SameNumber(a: Group, b: Group) {
    a.protocol == b.protocol && a.number == b.number
  }

  predicate GroupIs(db: Db, m: nat, id: nat) {
    m in db.members && db.members[m].fhrpId == id && id in db.groups
  }

  /** The gateway is already managed on one of the hosts under another number. */
  predicate GatewayTaken(db: Db, p: GroupInput) {
    exists m :: m in db.members && db.members[m].fhrpId in db.groups
      && db.groups[db.members[m].fhrpId].vip == p.group.vip
      && AsksHost(p, db.members[m].at.host) && !SameNumber(db.groups[db.members[m].fhrpId], p.group)
  }

  predicate EndpointTaken(db: Db, p: GroupInput) {
    exists m :: m in db.members && db.members[m].fhrpId in db.groups
      && SameNumber(db.groups[db.members[m].fhrpId], p.group) && AsksEndpoint(p, db.members[m].at)
  }

  predicate Protected(db: Db, id: nat) {
    exists m :: m in db.members && db.members[m].fhrpId == id && !db.members[m].status.PendingApply?
  }

  /** DELETE with its cascades. */
  function DropGroup(db: Db, id: nat): Db {
    db.(groups := db.groups - {id},
        members := map m | m in db.members && db.members[m].fhrpId != id :: db.members[m],
        tracks := map t | t in db.tracks && !GroupIs(db, db.tracks[t].memberId, id) :: db.tracks[t])
  }

  function NewMember(id: nat, input: MemberInput): Member {
    Member(id, input.at, input.settings, PendingApply, None)
  }

  function NewTracks(first: nat, member: nat, list: seq<TrackInput>): (r: map<nat, Track>)
    ensures forall t :: t in r <==> first <= t < first + |list|
    ensures forall t :: t in r ==> r[t].memberId == member && r[t].status == PendingApply && r[t].restore == None
  {
    if list == [] then map[]
    else
      var n := |list| - 1;
      NewTracks(first, member, list[..n])[first + n := Track(member, list[n].target, list[n].decrement, PendingApply, None)]
  }

  function InsertMember(db: Db, id: nat, input: MemberInput): Db {
    db.(members := db.members[db.nextMember := NewMember(id, input)],
        tracks := db.tracks + NewTracks(db.nextTrack, db.nextMember, input.tracks),
        nextMember := db.nextMember + 1,
        nextTrack := db.nextTrack + |input.tracks|)
  }

  /** Insert the members one after another, each followed by its tracks. */
  function InsertMembers(db: Db, id: nat, list: seq<MemberInput>): Db {
    if list == [] then db else InsertMember(InsertMembers(db, id, list[..|list| - 1]), id, list[|list| - 1])
  }

  function WithGroup(db: Db, group: Group): Db {
    db.(groups := db.groups[db.nextGroup := group], nextGroup := db.nextGroup + 1)
  }

  function InsertGroup(db: Db, p: GroupInput): Db {
    InsertMembers(WithGroup(db, p.group), db.nextGroup, p.members)
  }

  /** The database after a save, or None when the save is rejected. */
  ghost function SaveGroup(db: Db, inventory: Inventory, p: GroupInput): Option<Db> {
    if !InputValid(p, inventory) || GatewayTaken(db, p) then None
    else if g :| g in db.groups && db.groups[g] == p.group then
      if Protected(db, g) || EndpointTaken(DropGroup(db, g), p) then None else Some(InsertGroup(DropGroup(db, g), p))
    else if EndpointTaken(db, p) then None
    else Some(InsertGroup(db, p))
  }

  // ---------------------------------------------------------------------
  // Deletion marks
  // ---------------------------------------------------------------------

  predicate InGroup(db: Db, member: nat, id: nat) {
    member in db.members && db.members[member].fhrpId == id
  }

  function MarkGroup(db: Db, id: nat): Db {
    db.(members := map m | m in db.members ::
          if db.members[m].fhrpId != id || db.members[m].status.PendingDelete? then db.members[m]
          else db.members[m].(restore := Some(db.members[m].status), status := PendingDelete),
        tracks := map t | t in db.tracks ::
          if !InGroup(db, db.tracks[t].memberId, id) || db.tracks[t].status.PendingDelete? then db.tracks[t]
          else db.tracks[t].(restore := Some(db.tracks[t].status), status := PendingDelete))
  }

  function Restored(restore: Option<SyncStatus>): SyncStatus {
    if restore.Some? then restore.value else PendingApply
  }

  predicate MarkedIn(db: Db, member: nat, id: nat) {
    InGroup(db, member, id) && db.members[member].status.PendingDelete?
  }

  function CancelGroup(db: Db, id: nat): Db {
    db.(members := map m | m in db.members ::
          if MarkedIn(db, m, id) then db.members[m].(status := Restored(db.members[m].restore), restore := None)
          else db.members[m],
        tracks := map t | t in db.tracks ::
          if MarkedIn(db, db.tracks[t].memberId, id) && db.tracks[t].status.PendingDelete?
          then db.tracks[t].(status := Restored(db.tracks[t].restore), restore := None) else db.tracks[t])
  }

  // ---------------------------------------------------------------------
  // Tasks
  // ---------------------------------------------------------------------

  /** What a group occupies on a device. */
  datatype DeviceKey = DeviceKey(at: Endpoint, protocol: Protocol, number: nat)

  datatype Action = Setup | Remove

  datatype Task = Task(action: Action, memberId: nat, fhrpId: nat, key: DeviceKey, vip: string)

  function KeyOf(at: Endpoint, group: Group): DeviceKey {
    DeviceKey(at, group.protocol, group.number)
  }

  predicate Pending(db: Db, m: nat) {
    m in db.members && db.members[m].status.Pending() && db.members[m].fhrpId in db.groups
  }

  function TaskOf(db: Db, m: nat): Task
    requires Pending(db, m)
  {
    var member := db.members[m];
    var group := db.groups[member.fhrpId];
    Task(if member.status.PendingDelete? then Remove else Setup, m, member.fhrpId, KeyOf(member.at, group), group.vip)
  }

  function PendingOn(db: Db, host: string): set<nat> {
    set m | m in db.members && Pending(db, m) && db.members[m].at.host == host
  }

  function RemoveMember(db: Db, task: Task): Db {
    var members := db.members - {task.memberId};
    db.(members := members,
        tracks := map t | t in db.tracks && db.tracks[t].memberId != task.memberId :: db.tracks[t],
        groups := if exists m :: m in members && members[m].fhrpId == task.fhrpId then db.groups else db.groups - {task.fhrpId})
  }

  function SetupMember(db: Db, m: nat): Db {
    db.(members := if m in db.members then db.members[m := db.members[m].(status := Synchronized, restore := None)] else db.members,
        tracks := map t | t in db.tracks ::
          if db.tracks[t].memberId == m && db.tracks[t].status.PendingApply?
          then db.tracks[t].(status := Synchronized, restore := None) else db.tracks[t])
  }

  /** A verified task advances the rows whatever they say by then. */
  function Succeed(db: Db, task: Task): Db {
    if task.action.Remove? then RemoveMember(db, task) else SetupMember(db, task.memberId)
  }

  // ---------------------------------------------------------------------
  // What every operation keeps
  // ---------------------------------------------------------------------

  ghost predicate Linked(db: Db) {
    && (forall g :: g in db.groups ==> g < db.nextGroup)
    && (forall m :: m in db.members ==> m < db.nextMember && db.members[m].fhrpId in db.groups)
    && (forall t :: t in db.tracks ==> t < db.nextTrack && db.tracks[t].memberId in db.members)
  }

  ghost predicate HasMember(db: Db, g: nat) {
    exists m :: m in db.members && db.members[m].fhrpId == g
  }

  ghost predicate NoEmptyGroup(db: Db) {
    forall g {:trigger HasMember(db, g)} :: g in db.groups ==> HasMember(db, g)
  }

  ghost predicate GroupsDistinct(db: Db) {
    forall g, h :: g in db.groups && h in db.groups && db.groups[g] == db.groups[h] ==> g == h
  }

  function GroupOf(db: Db, m: nat): Group
    requires m in db.members && db.members[m].fhrpId in db.groups
  {
    db.groups[db.members[m].fhrpId]
  }

  predicate SameGateway(db: Db, m: nat, n: nat)
    requires m in db.members && db.members[m].fhrpId in db.groups && n in db.members && db.members[n].fhrpId in db.groups
  {
    db.members[m].at.host == db.members[n].at.host && GroupOf(db, m).vip == GroupOf(db, n).vip
  }

  predicate SameKey(db: Db, m: nat, n: nat)
    requires m in db.members && db.members[m].fhrpId in db.groups && n in db.members && db.members[n].fhrpId in db.groups
  {
    db.members[m].at == db.members[n].at && SameNumber(GroupOf(db, m), GroupOf(db, n))
  }

  /** Each virtual gateway is managed at most once on a host. */
  ghost predicate GatewaysDistinct(db: Db)
    requires Linked(db)
  {
    forall m, n :: m in db.members && n in db.members && SameGateway(db, m, n) ==> m == n
  }

  /** Each protocol and number is used at most once on an interface. */
  ghost predicate KeysDistinct(db: Db)
    requires Linked(db)
  {
    forall m, n :: m in db.members && n in db.members && SameKey(db, m, n) ==> m == n
  }

  predicate MarkConsistent(status: SyncStatus, restore: Option<SyncStatus>) {
    && (status.PendingDelete? <==> restore.Some?)
    && (restore.Some? ==> !restore.value.PendingDelete?)
  }

  ghost predicate MarksConsistent(db: Db) {
    && (forall m :: m in db.members ==> MarkConsistent(db.members[m].status, db.members[m].restore))
    && (forall t :: t in db.tracks ==> MarkConsistent(db.tracks[t].status, db.tracks[t].restore))
  }

  ghost predicate Sound(db: Db) {
    Linked(db) && NoEmptyGroup(db) && GroupsDistinct(db) && GatewaysDistinct(db) && KeysDistinct(db) && MarksConsistent(db)
  }

  /** Operations that only change statuses, tracks and restore columns. */
  ghost predicate SameShape(db: Db, after: Db) {
    && after.groups == db.groups && after.members.Keys == db.members.Keys && after.tracks.Keys == db.tracks.Keys
    && (forall m :: m in db.members ==> after.members[m].fhrpId == db.members[m].fhrpId && after.members[m].at == db.members[m].at)
    && (forall t :: t in db.tracks ==> after.tracks[t].memberId == db.tracks[t].memberId)
    && after.nextGroup == db.nextGroup && after.nextMember == db.nextMember && after.nextTrack == db.nextTrack
  }

  /** Members that remain keep their endpoint and their group. */
  ghost predicate Carried(db: Db, after: Db) {
    && (forall m :: m in after.members ==>
      m in db.members && after.members[m].fhrpId == db.members[m].fhrpId && after.members[m].at == db.members[m].at)
    && (forall g :: g in after.groups ==> g in db.groups && after.groups[g] == db.groups[g])
  }

  lemma CarriedDistinct(db: Db, after: Db)
    requires Sound(db) && Linked(after) && Carried(db, after)
    ensures GroupsDistinct(after) && GatewaysDistinct(after) && KeysDistinct(after)
  {
    forall m, n | m in after.members && n in after.members
      ensures SameGateway(after, m, n) <==> SameGateway(db, m, n)
      ensures SameKey(after, m, n) <==> SameKey(db, m, n)
    {
      assert GroupOf(after, m) == GroupOf(db, m) && GroupOf(after, n) == GroupOf(db, n);
    }
  }

  lemma SameShapeSound(db: Db, after: Db)
    requires Sound(db) && SameShape(db, after) && MarksConsistent(after)
    ensures Sound(after)
  {
    SameShapeLinked(db, after);
    CarriedDistinct(db, after);
  }

  lemma SameShapeLinked(db: Db, after: Db)
    requires Linked(db) && NoEmptyGroup(db) && SameShape(db, after)
    ensures Linked(after) && NoEmptyGroup(after)
  {
    assert forall t :: t in after.tracks ==> t in db.tracks;
    assert forall m :: m in after.members ==> m in db.members;
    forall g | g in after.groups
      ensures HasMember(after, g)
    {
      assert HasMember(db, g);
      var m :| m in db.members && db.members[m].fhrpId == g;
      assert m in after.members && after.members[m].fhrpId == g;
    }
  }

  lemma MarkSound(db: Db, id: nat)
    requires Sound(db)
    ensures Sound(MarkGroup(db, id)) && SameShape(db, MarkGroup(db, id))
  {
    SameShapeSound(db, MarkGroup(db, id));
  }

  lemma CancelSound(db: Db, id: nat)
    requires Sound(db)
    ensures Sound(CancelGroup(db, id)) && SameShape(db, CancelGroup(db, id))
  {
    SameShapeSound(db, CancelGroup(db, id));
  }

  /** What a cancel makes of a row marked in any way: its recorded state or, when the mark
      recorded none, a row still to be applied; a record is used once. */
  lemma CancelledRow(db: Db, id: nat, m: nat, t: nat)
    requires m in db.members && db.members[m].fhrpId == id && db.members[m].status == PendingDelete
    ensures var was, now := db.members[m], CancelGroup(db, id).members[m];
      now.restore == None && if was.restore == None then now.status == PendingApply else was.restore == Some(now.status)
    ensures t in db.tracks && db.tracks[t].memberId == m ==>
      var was, now := db.tracks[t], CancelGroup(db, id).tracks[t];
      if was.status != PendingDelete then now == was
      else now.restore == None && if was.restore == None then now.status == PendingApply else was.restore == Some(now.status)
  {
  }

  lemma SetupSound(db: Db, m: nat)
    requires Sound(db)
    ensures Sound(SetupMember(db, m)) && SameShape(db, SetupMember(db, m))
  {
    SameShapeSound(db, SetupMember(db, m));
  }

  /** A task still names its member's own group, with its endpoint, number and virtual
      address, if the member still exists. */
  ghost predicate Current(db: Db, task: Task) {
    && task.memberId < db.nextMember
    && (task.memberId in db.members ==> db.members[task.memberId].fhrpId == task.fhrpId)
    && (task.memberId in db.members && task.fhrpId in db.groups ==>
      task.key == KeyOf(db.members[task.memberId].at, db.groups[task.fhrpId]) && task.vip == db.groups[task.fhrpId].vip)
  }

  /** Verifying a removal again, after the member is gone, changes nothing. */
  lemma StaleRemovalIgnored(db: Db, task: Task)
    requires Linked(db) && NoEmptyGroup(db) && task.memberId !in db.members
    ensures RemoveMember(db, task) == db
  {
    assert task.fhrpId in db.groups ==> HasMember(db, task.fhrpId);
    assert db.members - {task.memberId} == db.members;
  }

  lemma RemoveSound(db: Db, task: Task)
    requires Sound(db) && Current(db, task)
    ensures Sound(RemoveMember(db, task))
  {
    if task.memberId !in db.members {
      StaleRemovalIgnored(db, task);
    } else {
      RemoveLinked(db, task);
      RemoveNoEmptyGroup(db, task);
      CarriedDistinct(db, RemoveMember(db, task));
      RemoveMarks(db, task);
    }
  }

  lemma RemoveMarks(db: Db, task: Task)
    requires MarksConsistent(db)
    ensures MarksConsistent(RemoveMember(db, task))
  {
  }

  lemma RemoveLinked(db: Db, task: Task)
    requires Linked(db) && Current(db, task) && task.memberId in db.members
    ensures Linked(RemoveMember(db, task))
  {
    var after := RemoveMember(db, task);
    forall m | m in after.members
      ensures after.members[m].fhrpId in after.groups
    {
    }
  }

  lemma RemoveNoEmptyGroup(db: Db, task: Task)
    requires Linked(db) && NoEmptyGroup(db) && Current(db, task) && task.memberId in db.members
    ensures NoEmptyGroup(RemoveMember(db, task))
  {
    var after := RemoveMember(db, task);
    forall g | g in after.groups
      ensures HasMember(after, g)
    {
      if g != task.fhrpId {
        assert HasMember(db, g);
        var m :| m in db.members && db.members[m].fhrpId == g;
        assert m in after.members && after.members[m].fhrpId == g;
      }
    }
  }

  // Saving

  lemma DropGroupSound(db: Db, id: nat)
    requires Sound(db)
    ensures Sound(DropGroup(db, id))
  {
    DropGroupLinked(db, id);
    DropGroupNoEmpty(db, id);
    CarriedDistinct(db, DropGroup(db, id));
    DropGroupMarks(db, id);
  }

  lemma DropGroupLinked(db: Db, id: nat)
    requires Linked(db)
    ensures Linked(DropGroup(db, id))
  {
  }

  lemma DropGroupMarks(db: Db, id: nat)
    requires MarksConsistent(db)
    ensures MarksConsistent(DropGroup(db, id))
  {
  }

  lemma DropGroupNoEmpty(db: Db, id: nat)
    requires NoEmptyGroup(db)
    ensures NoEmptyGroup(DropGroup(db, id))
  {
    var after := DropGroup(db, id);
    forall g | g in after.groups
      ensures HasMember(after, g)
    {
      assert HasMember(db, g);
      var m :| m in db.members && db.members[m].fhrpId == g;
      assert m in after.members && after.members[m].fhrpId == g;
    }
  }

  ghost predicate IdsBelow(db: Db) {
    (forall m :: m in db.members ==> m < db.nextMember) && (forall t :: t in db.tracks ==> t < db.nextTrack)
  }

  ghost predicate InsertedMembers(db: Db, after: Db, id: nat, list: seq<MemberInput>) {
    && after.groups == db.groups && after.nextGroup == db.nextGroup
    && after.nextMember == db.nextMember + |list|
    && (forall m :: m in after.members <==> m in db.members || db.nextMember <= m < after.nextMember)
    && (forall m :: m in db.members ==> after.members[m] == db.members[m])
    && (forall m :: db.nextMember <= m < after.nextMember ==> after.members[m] == NewMember(id, list[m - db.nextMember]))
  }

  ghost predicate InsertedTracks(db: Db, after: Db) {
    && after.nextTrack >= db.nextTrack
    && (forall t :: t in db.tracks ==> t in after.tracks && after.tracks[t] == db.tracks[t])
    && (forall t :: t in after.tracks && t !in db.tracks ==> db.nextTrack <= t < after.nextTrack)
    && (forall t :: t in after.tracks && t !in db.tracks ==> db.nextMember <= after.tracks[t].memberId < after.nextMember)
    && (forall t :: t in after.tracks && t !in db.tracks ==>
      after.tracks[t].status.PendingApply? && after.tracks[t].restore.None?)
  }

  /** Insertion adds one fresh member per input and only fresh tracks of those. */
  ghost predicate Inserted(db: Db, after: Db, id: nat, list: seq<MemberInput>) {
    InsertedMembers(db, after, id, list) && InsertedTracks(db, after)
  }

  lemma {:induction false} InsertMembersEffect(db: Db, id: nat, list: seq<MemberInput>)
    requires IdsBelow(db)
    ensures Inserted(db, InsertMembers(db, id, list), id, list)
  {
    if list != [] {
      var n := |list| - 1;
      InsertMembersEffect(db, id, list[..n]);
      MemberRowAdded(db, InsertMembers(db, id, list[..n]), InsertMembers(db, id, list), id, list);
      TrackRowsAdded(db, InsertMembers(db, id, list[..n]), InsertMembers(db, id, list), list[n].tracks);
    }
  }

  lemma MemberRowAdded(db: Db, before: Db, after: Db, id: nat, list: seq<MemberInput>)
    requires list != [] && IdsBelow(db) && InsertedMembers(db, before, id, list[..|list| - 1])
    requires after.members == before.members[before.nextMember := NewMember(id, list[|list| - 1])]
    requires after.nextMember == before.nextMember + 1 && after.groups == before.groups && after.nextGroup == before.nextGroup
    ensures InsertedMembers(db, after, id, list)
  {
  }

  lemma TrackRowsAdded(db: Db, before: Db, after: Db, tracks: seq<TrackInput>)
    requires IdsBelow(db) && InsertedTracks(db, before) && db.nextMember <= before.nextMember < after.nextMember
    requires after.tracks == before.tracks + NewTracks(before.nextTrack, before.nextMember, tracks)
    requires after.nextTrack == before.nextTrack + |tracks|
    ensures InsertedTracks(db, after)
  {
  }

  lemma InsertGroupSound(db: Db, inventory: Inventory, p: GroupInput)
    requires Sound(db) && InputValid(p, inventory)
    requires !GatewayTaken(db, p) && !EndpointTaken(db, p) && forall g :: g in db.groups ==> db.groups[g] != p.group
    ensures Sound(InsertGroup(db, p))
  {
    var after := InsertGroup(db, p);
    InsertMembersEffect(WithGroup(db, p.group), db.nextGroup, p.members);
    InsertedLinked(db, p, after);
    InsertedNoEmpty(db, p, after);
    InsertedDistinct(db, inventory, p, after);
    assert GroupsDistinct(after);
    InsertedMarks(db, p, after);
  }

  lemma TakenGatewayClashes(db: Db, p: GroupInput, m: nat, i: nat)
    requires Linked(db) && m in db.members && i < |p.members|
    requires GroupOf(db, m).vip == p.group.vip && db.members[m].at.host == p.members[i].at.host
    requires Linked(InsertGroup(db, p))
    ensures !GatewaysDistinct(InsertGroup(db, p))
  {
    var after, n := InsertGroup(db, p), db.nextMember + i;
    InsertMembersEffect(WithGroup(db, p.group), db.nextGroup, p.members);
    assert after.members[n] == NewMember(db.nextGroup, p.members[i]) && GroupOf(after, n) == p.group;
    assert GroupOf(after, m) == GroupOf(db, m);
    assert SameGateway(after, m, n) && m != n;
  }

  lemma TakenEndpointClashes(db: Db, p: GroupInput, m: nat, i: nat)
    requires Linked(db) && m in db.members && i < |p.members|
    requires SameNumber(GroupOf(db, m), p.group) && db.members[m].at == p.members[i].at
    requires Linked(InsertGroup(db, p))
    ensures !KeysDistinct(InsertGroup(db, p))
  {
    var after, n := InsertGroup(db, p), db.nextMember + i;
    InsertMembersEffect(WithGroup(db, p.group), db.nextGroup, p.members);
    assert after.members[n] == NewMember(db.nextGroup, p.members[i]) && GroupOf(after, n) == p.group;
    assert GroupOf(after, m) == GroupOf(db, m);
    assert SameKey(after, m, n) && m != n;
  }

  lemma RepeatedGroupClashes(db: Db, p: GroupInput, g: nat)
    requires Linked(db) && g in db.groups && db.groups[g] == p.group
    ensures !GroupsDistinct(InsertGroup(db, p))
  {
    InsertMembersEffect(WithGroup(db, p.group), db.nextGroup, p.members);
    var after := InsertGroup(db, p);
    assert after.groups[g] == after.groups[db.nextGroup] && g != db.nextGroup;
  }

  /** Each check of a save is needed: inserting a valid group keeps the tables sound
      exactly when it is new, no gateway is taken and no endpoint is taken. */
  lemma InsertGroupSoundIff(db: Db, inventory: Inventory, p: GroupInput)
    requires Sound(db) && InputValid(p, inventory)
    ensures Sound(InsertGroup(db, p)) <==>
            (forall g :: g in db.groups ==> db.groups[g] != p.group) && !GatewayTaken(db, p) && !EndpointTaken(db, p)
  {
    if g :| g in db.groups && db.groups[g] == p.group {
      RepeatedGroupClashes(db, p, g);
    } else if GatewayTaken(db, p) {
      var m :| m in db.members && db.members[m].fhrpId in db.groups
        && db.groups[db.members[m].fhrpId].vip == p.group.vip
        && AsksHost(p, db.members[m].at.host) && !SameNumber(db.groups[db.members[m].fhrpId], p.group);
      var i: nat :| i < |p.members| && p.members[i].at.host == db.members[m].at.host;
      if Sound(InsertGroup(db, p)) { TakenGatewayClashes(db, p, m, i); }
    } else if EndpointTaken(db, p) {
      var m :| m in db.members && db.members[m].fhrpId in db.groups
        && SameNumber(db.groups[db.members[m].fhrpId], p.group) && AsksEndpoint(p, db.members[m].at);
      var i: nat :| i < |p.members| && p.members[i].at == db.members[m].at;
      if Sound(InsertGroup(db, p)) { TakenEndpointClashes(db, p, m, i); }
    } else {
      InsertGroupSound(db, inventory, p);
    }
  }

  lemma InsertedLinked(db: Db, p: GroupInput, after: Db)
    requires Linked(db)
    requires Inserted(WithGroup(db, p.group), after, db.nextGroup, p.members)
    ensures Linked(after)
  {
  }

  lemma InsertedMarks(db: Db, p: GroupInput, after: Db)
    requires MarksConsistent(db)
    requires Inserted(WithGroup(db, p.group), after, db.nextGroup, p.members)
    ensures MarksConsistent(after)
  {
  }

  lemma InsertedNoEmpty(db: Db, p: GroupInput, after: Db)
    requires NoEmptyGroup(db) && p.members != []
    requires Inserted(WithGroup(db, p.group), after, db.nextGroup, p.members)
    ensures NoEmptyGroup(after)
  {
    forall g | g in after.groups
      ensures HasMember(after, g)
    {
      if g == db.nextGroup {
        assert db.nextMember in after.members && after.members[db.nextMember].fhrpId == g;
      } else {
        assert HasMember(db, g);
        var m :| m in db.members && db.members[m].fhrpId == g;
        assert m in after.members && after.members[m].fhrpId == g;
      }
    }
  }

  lemma InsertedDistinct(db: Db, inventory: Inventory, p: GroupInput, after: Db)
    requires Sound(db) && InputValid(p, inventory) && Linked(after)
    requires !GatewayTaken(db, p) && !EndpointTaken(db, p) && forall g :: g in db.groups ==> db.groups[g] != p.group
    requires Inserted(WithGroup(db, p.group), after, db.nextGroup, p.members)
    ensures GatewaysDistinct(after) && KeysDistinct(after)
  {
    forall m, n | m in after.members && n in after.members && m != n
      ensures !SameGateway(after, m, n) && !SameKey(after, m, n)
    {
      if m in db.members && n in db.members {
        OldMembersDistinct(db, p, after, m, n);
      } else if m in db.members {
        NewMemberDistinct(db, p, after, m, n);
      } else if n in db.members {
        NewMemberDistinct(db, p, after, n, m);
      } else {
        NewMembersDistinct(db, inventory, p, after, m, n);
      }
    }
  }

  lemma OldMembersDistinct(db: Db, p: GroupInput, after: Db, m: nat, n: nat)
    requires Sound(db) && Linked(after) && m in db.members && n in db.members && m != n
    requires Inserted(WithGroup(db, p.group), after, db.nextGroup, p.members)
    ensures m in after.members && n in after.members && !SameGateway(after, m, n) && !SameKey(after, m, n)
  {
    assert GroupOf(after, m) == GroupOf(db, m) && GroupOf(after, n) == GroupOf(db, n);
    assert !SameGateway(db, m, n) && !SameKey(db, m, n);
  }

  /** The members of one save are on different hosts. */
  lemma NewMembersDistinct(db: Db, inventory: Inventory, p: GroupInput, after: Db, m: nat, n: nat)
    requires Linked(after) && InputValid(p, inventory)
    requires Inserted(WithGroup(db, p.group), after, db.nextGroup, p.members)
    requires m in after.members && n in after.members && m !in db.members && n !in db.members && m != n
    ensures !SameGateway(after, m, n) && !SameKey(after, m, n)
  {
    assert after.members[m] == NewMember(db.nextGroup, p.members[m - db.nextMember]);
    assert after.members[n] == NewMember(db.nextGroup, p.members[n - db.nextMember]);
  }

  /** The checks of a save keep a new member apart from an old one. */
  lemma NewMemberDistinct(db: Db, p: GroupInput, after: Db, m: nat, n: nat)
    requires Linked(db) && Linked(after)
    requires !GatewayTaken(db, p) && !EndpointTaken(db, p) && forall g :: g in db.groups ==> db.groups[g] != p.group
    requires Inserted(WithGroup(db, p.group), after, db.nextGroup, p.members)
    requires m in db.members && n !in db.members && n in after.members
    ensures !SameGateway(after, m, n) && !SameKey(after, m, n)
    ensures !SameGateway(after, n, m) && !SameKey(after, n, m)
  {
    var i := n - db.nextMember;
    assert after.members[n] == NewMember(db.nextGroup, p.members[i]) && GroupOf(after, n) == p.group;
    assert GroupOf(after, m) == GroupOf(db, m);
    assert AsksHost(p, after.members[n].at.host) && AsksEndpoint(p, after.members[n].at);
  }

  /** Every accepted save keeps the tables sound, whatever was submitted. */
  lemma SaveSound(db: Db, inventory: Inventory, p: GroupInput)
    requires Sound(db) && SaveGroup(db, inventory, p).Some?
    ensures Sound(SaveGroup(db, inventory, p).value)
  {
    if g :| g in db.groups && db.groups[g] == p.group {
      assert forall h :: h in db.groups && db.groups[h] == p.group ==> h == g;
      DropGroupSound(db, g);
      var dropped := DropGroup(db, g);
      DropGroupFree(db, p, g);
      InsertGroupSound(dropped, inventory, p);
    } else {
      InsertGroupSound(db, inventory, p);
    }
  }

  lemma DropGroupFree(db: Db, p: GroupInput, g: nat)
    requires Linked(db) && !GatewayTaken(db, p)
    ensures !GatewayTaken(DropGroup(db, g), p)
  {
  }

  // What a save does, in terms of the request

  /** The group is there already, with a member that is not a draft. */
  predicate AlreadyConfigured(db: Db, p: GroupInput) {
    exists m :: m in db.members && ConfiguredBy(db, m, p)
  }

  predicate ConfiguredBy(db: Db, m: nat, p: GroupInput)
    requires m in db.members
  {
    && db.members[m].fhrpId in db.groups && db.groups[db.members[m].fhrpId] == p.group
    && !db.members[m].status.PendingApply?
  }

  /** An endpoint is taken by a group of the same number with another address; one of
      the same address is the draft that the save replaces. */
  predicate EndpointOfOther(db: Db, p: GroupInput) {
    exists m :: m in db.members && OtherAt(db, m, p)
  }

  predicate OtherAt(db: Db, m: nat, p: GroupInput)
    requires m in db.members
  {
    && db.members[m].fhrpId in db.groups && SameNumber(db.groups[db.members[m].fhrpId], p.group)
    && db.groups[db.members[m].fhrpId] != p.group && AsksEndpoint(p, db.members[m].at)
  }

  /** A save is accepted exactly when the number is one of the protocol, there are two
      to five members on distinct hosts, each at an interface of its host, no gateway
      is taken, the group is not configured yet and no endpoint belongs to another. */
  lemma SaveAcceptedIff(db: Db, inventory: Inventory, p: GroupInput)
    requires Sound(db)
    ensures SaveGroup(db, inventory, p).Some? <==>
      && (p.group.protocol.Hsrp? ==> p.group.number <= 4095)
      && (p.group.protocol.Vrrp? ==> 1 <= p.group.number <= 255)
      && (p.group.protocol.Glbp? ==> p.group.number <= 1023)
      && 2 <= |p.members| <= 5
      && (forall i, j :: 0 <= i < j < |p.members| ==> p.members[i].at.host != p.members[j].at.host)
      && (forall i :: 0 <= i < |p.members| ==>
        var at := p.members[i].at;
        (at.kind, at.iface) in inventory && inventory[(at.kind, at.iface)] == at.host)
      && !GatewayTaken(db, p) && !AlreadyConfigured(db, p) && !EndpointOfOther(db, p)
  {
    if g :| g in db.groups && db.groups[g] == p.group {
      ProtectedIff(db, p, g);
      OtherEndpointIff(db, p, g);
    } else {
      NoneConfigured(db, p);
    }
  }

  lemma ProtectedIff(db: Db, p: GroupInput, g: nat)
    requires Sound(db) && g in db.groups && db.groups[g] == p.group
    ensures Protected(db, g) <==> AlreadyConfigured(db, p)
  {
    if m :| m in db.members && ConfiguredBy(db, m, p) {
      assert db.members[m].fhrpId == g;
    }
  }

  lemma OtherEndpointIff(db: Db, p: GroupInput, g: nat)
    requires Sound(db) && g in db.groups && db.groups[g] == p.group
    ensures EndpointTaken(DropGroup(db, g), p) <==> EndpointOfOther(db, p)
  {
    var dropped := DropGroup(db, g);
    forall m
      ensures m in dropped.members && dropped.members[m].fhrpId in dropped.groups
         <==> m in db.members && db.members[m].fhrpId in db.groups && db.groups[db.members[m].fhrpId] != p.group
    {
    }
    if m :| m in db.members && OtherAt(db, m, p) {
      assert m in dropped.members && dropped.members[m] == db.members[m];
    }
  }

  lemma NoneConfigured(db: Db, p: GroupInput)
    requires forall g :: g in db.groups ==> db.groups[g] != p.group
    ensures !AlreadyConfigured(db, p) && (EndpointTaken(db, p) <==> EndpointOfOther(db, p))
  {
  }

  /** The tracks under ids `first`.. are those of the list, in order. */
  ghost predicate TracksAre(tracks: map<nat, Track>, member: nat, first: nat, list: seq<TrackInput>) {
    && (forall t {:trigger t in tracks} :: t in tracks && tracks[t].memberId == member <==> first <= t < first + |list|)
    && (forall t {:trigger tracks[t]} :: first <= t < first + |list| ==>
      tracks[t] == Track(member, list[t - first].target, list[t - first].decrement, PendingApply, None))
  }

  /** The member row of an input, with its tracks from id `first`. */
  ghost predicate StoredAs(db: Db, m: nat, id: nat, first: nat, input: MemberInput) {
    && m in db.members && db.members[m] == Member(id, input.at, input.settings, PendingApply, None)
    && TracksAre(db.tracks, m, first, input.tracks)
  }

  lemma {:induction false} NewTracksAre(first: nat, member: nat, list: seq<TrackInput>)
    ensures TracksAre(NewTracks(first, member, list), member, first, list)
  {
    if list != [] {
      NewTracksAre(first, member, list[..|list| - 1]);
    }
  }

  /** The tables after each of the insertions. */
  ghost predicate Chain(states: seq<Db>, id: nat, list: seq<MemberInput>) {
    |states| == |list| + 1 && forall k :: 0 <= k < |list| ==> Inserts(states, id, list, k)
  }

  predicate Inserts(states: seq<Db>, id: nat, list: seq<MemberInput>, k: int) {
    0 <= k < |list| && k + 1 < |states| && states[k + 1] == InsertMember(states[k], id, list[k])
  }

  ghost predicate IdsAhead(db: Db) {
    forall t :: t in db.tracks ==> t < db.nextTrack && db.tracks[t].memberId < db.nextMember
  }

  lemma {:induction false} ChainAhead(states: seq<Db>, id: nat, list: seq<MemberInput>, k: nat)
    requires Chain(states, id, list) && IdsAhead(states[0]) && k <= |list|
    ensures IdsAhead(states[k]) && states[k].nextMember == states[0].nextMember + k
  {
    if k > 0 {
      ChainAhead(states, id, list, k - 1);
      assert Inserts(states, id, list, k - 1);
    }
  }

  lemma {:induction false} ChainStored(states: seq<Db>, id: nat, list: seq<MemberInput>, i: nat, k: nat)
    requires Chain(states, id, list) && IdsAhead(states[0]) && i < k <= |list|
    ensures StoredAs(states[k], states[0].nextMember + i, id, states[i].nextTrack, list[i])
  {
    ChainAhead(states, id, list, k - 1);
    assert Inserts(states, id, list, k - 1);
    if k == i + 1 {
      LastStored(states[i], states[k], id, list[i]);
    } else {
      ChainStored(states, id, list, i, k - 1);
      EarlierStored(states[k - 1], states[k], states[0].nextMember + i, id, states[i].nextTrack, list[i], list[k - 1]);
    }
  }

  lemma EarlierStored(before: Db, after: Db, m: nat, id: nat, first: nat, input: MemberInput, next: MemberInput)
    requires StoredAs(before, m, id, first, input) && m != before.nextMember && IdsAhead(before)
    requires after == InsertMember(before, id, next)
    ensures StoredAs(after, m, id, first, input)
  {
  }

  lemma LastStored(before: Db, after: Db, id: nat, input: MemberInput)
    requires IdsAhead(before) && after == InsertMember(before, id, input)
    ensures StoredAs(after, before.nextMember, id, before.nextTrack, input)
  {
    NewTracksAre(before.nextTrack, before.nextMember, input.tracks);
  }

  lemma ChainOf(db: Db, id: nat, list: seq<MemberInput>) returns (states: seq<Db>)
    ensures Chain(states, id, list) && states[0] == db && states[|list|] == InsertMembers(db, id, list)
  {
    states := seq(|list| + 1, k requires 0 <= k <= |list| => InsertMembers(db, id, list[..k]));
    forall k | 0 <= k < |list|
      ensures Inserts(states, id, list, k)
    {
      assert list[..k + 1][..k] == list[..k];
    }
    assert list[..|list|] == list;
  }

  /** The member row of an input, with its tracks in order and no others. */
  ghost predicate Stored(db: Db, m: nat, id: nat, input: MemberInput) {
    exists first: nat :: StoredAs(db, m, id, first, input)
  }

  lemma InsertedStored(db: Db, id: nat, list: seq<MemberInput>, i: nat)
    requires IdsAhead(db) && i < |list|
    ensures Stored(InsertMembers(db, id, list), db.nextMember + i, id, list[i])
  {
    var states := ChainOf(db, id, list);
    ChainStored(states, id, list, i, |list|);
    assert StoredAs(states[|list|], db.nextMember + i, id, states[i].nextTrack, list[i]);
  }

  lemma LinkedAhead(db: Db, group: Group)
    requires Linked(db)
    ensures IdsAhead(WithGroup(db, group))
  {
  }

  /** After an accepted save the group is there once, under a new id, and its members
      are the submitted ones, in order, with their tracks, all to be applied. */
  lemma SavedGroupReadsBack(db: Db, inventory: Inventory, p: GroupInput, i: nat)
    requires Sound(db) && SaveGroup(db, inventory, p).Some? && i < |p.members|
    ensures var after, g := SaveGroup(db, inventory, p).value, db.nextGroup;
      && g in after.groups && after.groups[g] == p.group
      && Stored(after, db.nextMember + i, g, p.members[i])
      && forall m :: m in after.members && after.members[m].fhrpId == g ==> db.nextMember <= m < db.nextMember + |p.members|
  {
    if g :| g in db.groups && db.groups[g] == p.group {
      assert forall h :: h in db.groups && db.groups[h] == p.group ==> h == g;
      DropGroupLinked(db, g);
      InsertedGroup(DropGroup(db, g), p, i);
    } else {
      InsertedGroup(db, p, i);
    }
  }

  lemma InsertedGroup(db: Db, p: GroupInput, i: nat)
    requires Linked(db) && i < |p.members|
    ensures var after, g := InsertGroup(db, p), db.nextGroup;
      && g in after.groups && after.groups[g] == p.group
      && Stored(after, db.nextMember + i, g, p.members[i])
      && forall m :: m in after.members && after.members[m].fhrpId == g ==> db.nextMember <= m < db.nextMember + |p.members|
  {
    LinkedAhead(db, p.group);
    InsertedStored(WithGroup(db, p.group), db.nextGroup, p.members, i);
    InsertedMembersOnly(db, p);
  }

  lemma InsertedMembersOnly(db: Db, p: GroupInput)
    requires Linked(db)
    ensures var after, g := InsertGroup(db, p), db.nextGroup;
      && g in after.groups && after.groups[g] == p.group
      && forall m :: m in after.members && after.members[m].fhrpId == g ==> db.nextMember <= m < db.nextMember + |p.members|
  {
    InsertMembersEffect(WithGroup(db, p.group), db.nextGroup, p.members);
  }
}
