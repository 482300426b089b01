// The FHRP repository, collector and deferred verification, working on the
// tables in place.

module FhrpStore {
  import opened Common
  import opened FhrpTables
  import opened FhrpRuns

  /** The outcome of verifying a batch one task after the other. */
  function VerifyBatch(db: Db, tasks: seq<Task>, shown: Shown): (Db, nat) {
    if tasks == [] then (db, 0)
    else
      var (before, succeeded) := VerifyBatch(db, tasks[..|tasks| - 1], shown);
      var task := tasks[|tasks| - 1];
      if Verified(task, shown) then (Succeed(before, task), succeeded + 1) else (before, succeeded)
  }

  /** A batch is a stretch of an interleaving: one verification after the other. */
  lemma {:induction false} VerifyBatchRuns(w: World, inventory: Inventory, tasks: seq<Task>, shown: Shown)
    requires forall task :: task in tasks ==> task in w.contexts
    ensures var verified := RunEvents(w, inventory, Verifications(tasks, shown));
      && verified.db == VerifyBatch(w.db, tasks, shown).0 && verified.contexts == w.contexts
      && forall m :: m in verified.confirmed <==>
        m in w.confirmed || exists task :: task in tasks && task.action.Setup? && task.memberId == m && Verified(task, shown)
  {
    var events := Verifications(tasks, shown);
    if tasks != [] {
      var n := |tasks| - 1;
      VerifyBatchRuns(w, inventory, tasks[..n], shown);
      assert events[..n] == Verifications(tasks[..n], shown) && events[n] == Verify(tasks[n], shown);
      assert tasks == tasks[..n] + [tasks[n]];
      VerifyOne(RunEvents(w, inventory, events[..n]), inventory, tasks[n], shown);
    }
  }

  lemma VerifyOne(w: World, inventory: Inventory, task: Task, shown: Shown)
    requires task in w.contexts
    ensures var after := After(w, inventory, Verify(task, shown));
      && after.db == (if Verified(task, shown) then Succeed(w.db, task) else w.db) && after.contexts == w.contexts
      && after.confirmed == w.confirmed + if Verified(task, shown) && task.action.Setup? then {task.memberId} else {}
  {
  }

  /** The count is the number of tasks that verify. */
  lemma {:induction false} VerifiedCount(db: Db, tasks: seq<Task>, shown: Shown)
    ensures VerifyBatch(db, tasks, shown).1 == |set i: nat | i < |tasks| && Verified(tasks[i], shown)|
  {
    if tasks != [] {
      var n: nat := |tasks| - 1;
      VerifiedCount(db, tasks[..n], shown);
      var rest := set i: nat | i < n && Verified(tasks[..n][i], shown);
      var all := set i: nat | i < |tasks| && Verified(tasks[i], shown);
      assert all == if Verified(tasks[n], shown) then rest + {n} else rest;
    }
  }

  function Verifications(tasks: seq<Task>, shown: Shown): seq<Event> {
    seq(|tasks|, i requires 0 <= i < |tasks| => Verify(tasks[i], shown))
  }

  lemma NewTracksStep(before: map<nat, Track>, first: nat, member: nat, list: seq<TrackInput>, i: nat)
    requires i < |list|
    ensures before + NewTracks(first, member, list[..i + 1]) ==
            (before + NewTracks(first, member, list[..i]))[first + i := Track(member, list[i].target, list[i].decrement, PendingApply, None)]
  {
    assert list[..i + 1][..i] == list[..i];
  }

  // What the UPDATE statements do to one row.

  function Marked(member: Member): Member {
    if member.status.PendingDelete? then member else member.(restore := Some(member.status), status := PendingDelete)
  }

  function MarkedTrack(track: Track): Track {
    if track.status.PendingDelete? then track else track.(restore := Some(track.status), status := PendingDelete)
  }

  function RestoredMember(member: Member): Member {
    if member.status.PendingDelete? then member.(status := Restored(member.restore), restore := None) else member
  }

  function RestoredTrack(track: Track): Track {
    if track.status.PendingDelete? then track.(status := Restored(track.restore), restore := None) else track
  }

  lemma MarkUndone(db: Db, id: nat)
    requires Sound(db)
    ensures Unmarked(db, id) ==> MarkOf(db, MarkGroup(db, id), id) && CancelGroup(MarkGroup(db, id), id) == db
  {
    if Unmarked(db, id) {
      MarkRecords(db, id);
      CancelUndoesMark(db, id);
    }
  }

  lemma CancelRestoresAll(db: Db, id: nat)
    ensures forall origin :: Sound(origin) && Unmarked(origin, id) && MarkOf(origin, db, id) ==>
      RestoredTo(origin, CancelGroup(db, id), id)
  {
    forall origin | Sound(origin) && Unmarked(origin, id) && MarkOf(origin, db, id)
      ensures RestoredTo(origin, CancelGroup(db, id), id)
    {
      CancelRestores(origin, db, id);
    }
  }

  /** Updating by the ids of the group's members is marking the group. */
  lemma MarkedByIds(db: Db, id: nat, ids: set<nat>, members: map<nat, Member>, tracks: map<nat, Track>)
    requires forall m :: m in ids <==> InGroup(db, m, id)
    requires members.Keys == db.members.Keys && tracks.Keys == db.tracks.Keys
    requires forall m :: m in members ==> members[m] == if m in ids then Marked(db.members[m]) else db.members[m]
    requires forall t :: t in tracks ==> tracks[t] == if db.tracks[t].memberId in ids then MarkedTrack(db.tracks[t]) else db.tracks[t]
    ensures members == MarkGroup(db, id).members && tracks == MarkGroup(db, id).tracks
  {
  }

  lemma RestoredByIds(db: Db, id: nat, ids: set<nat>, members: map<nat, Member>, tracks: map<nat, Track>)
    requires forall m :: m in ids <==> MarkedIn(db, m, id)
    requires members.Keys == db.members.Keys && tracks.Keys == db.tracks.Keys
    requires forall m :: m in members ==> members[m] == if m in ids then RestoredMember(db.members[m]) else db.members[m]
    requires forall t :: t in tracks ==> tracks[t] == if db.tracks[t].memberId in ids then RestoredTrack(db.tracks[t]) else db.tracks[t]
    ensures members == CancelGroup(db, id).members && tracks == CancelGroup(db, id).tracks
    ensures ids == {} ==> members == db.members && tracks == db.tracks
  {
  }

  class FhrpRepository {
    var groups: map<nat, Group>
    var members: map<nat, Member>
    var tracks: map<nat, Track>
    var nextGroup: nat
    var nextMember: nat
    var nextTrack: nat
    const inventory: Inventory

    function View(): Db
      reads this
    {
      Db(groups, members, tracks, nextGroup, nextMember, nextTrack)
    }

    ghost predicate Valid()
      reads this
    {
      Sound(View())
    }

    constructor (inventory: Inventory)
      ensures Valid() && View() == EMPTY && this.inventory == inventory
    {
      this.inventory := inventory;
      groups, members, tracks := map[], map[], map[];
      nextGroup, nextMember, nextTrack := 1, 1, 1;
    }

    method DeleteGroup(id: nat)
      modifies this
      ensures View() == DropGroup(old(View()), id)
    {
      tracks := map t | t in tracks && !GroupIs(View(), tracks[t].memberId, id) :: tracks[t];
      members := map m | m in members && members[m].fhrpId != id :: members[m];
      groups := groups - {id};
    }

    method InsertTracks(member: nat, list: seq<TrackInput>)
      modifies `tracks, `nextTrack
      ensures tracks == old(tracks) + NewTracks(old(nextTrack), member, list) && nextTrack == old(nextTrack) + |list|
    {
      ghost var before, first := tracks, nextTrack;
      for i := 0 to |list|
        invariant tracks == before + NewTracks(first, member, list[..i]) && nextTrack == first + i
      {
        NewTracksStep(before, first, member, list, i);
        tracks := tracks[nextTrack := Track(member, list[i].target, list[i].decrement, PendingApply, None)];
        nextTrack := nextTrack + 1;
      }
      assert list[..|list|] == list;
    }

    method InsertMember(id: nat, input: MemberInput)
      modifies this
      ensures View() == old(View()).(
        members := old(members)[old(nextMember) := NewMember(id, input)],
        tracks := old(tracks) + NewTracks(old(nextTrack), old(nextMember), input.tracks),
        nextMember := old(nextMember) + 1, nextTrack := old(nextTrack) + |input.tracks|)
    {
      var member := nextMember;
      members := members[member := NewMember(id, input)];
      nextMember := nextMember + 1;
      InsertTracks(member, input.tracks);
    }

    method InsertAll(p: GroupInput)
      modifies this
      ensures View() == InsertGroup(old(View()), p)
    {
      var id := nextGroup;
      groups := groups[id := p.group];
      nextGroup := nextGroup + 1;
      for i := 0 to |p.members|
        invariant View() == InsertMembers(WithGroup(old(View()), p.group), id, p.members[..i])
      {
        assert p.members[..i + 1][..i] == p.members[..i];
        InsertMember(id, p.members[i]);
      }
      assert p.members[..|p.members|] == p.members;
    }

    predicate Clashes(m: nat, group: Group, at: Endpoint)
      reads this
      requires m in members
    {
      members[m].fhrpId in groups && SameNumber(groups[members[m].fhrpId], group) && members[m].at == at
    }

    method EndpointFree(p: GroupInput) returns (free: bool)
      ensures free == !EndpointTaken(View(), p)
    {
      for i := 0 to |p.members|
        invariant forall m, k :: m in members && 0 <= k < i ==> !Clashes(m, p.group, p.members[k].at)
      {
        if exists m :: m in members && Clashes(m, p.group, p.members[i].at) {
          assert AsksEndpoint(p, p.members[i].at);
          return false;
        }
      }
      return true;
    }

    /** One transaction: a raised conflict leaves the old tables. */
    method SaveFhrpGroup(p: GroupInput) returns (ok: bool)
      requires Valid()
      modifies this
      ensures Valid()
      ensures ok == SaveGroup(old(View()), inventory, p).Some?
      ensures View() == if ok then SaveGroup(old(View()), inventory, p).value else old(View())
    {
      ghost var before := View();
      if SaveGroup(before, inventory, p).Some? { SaveSound(before, inventory, p); }
      assert GroupsDistinct(before);
      ok := TrySave(p);
    }

    method TrySave(p: GroupInput) returns (ok: bool)
      requires GroupsDistinct(View())
      modifies this
      ensures ok == SaveGroup(old(View()), inventory, p).Some?
      ensures View() == if ok then SaveGroup(old(View()), inventory, p).value else old(View())
    {
      if !InputValid(p, inventory) || GatewayTaken(View(), p) {
        return false;
      }
      var snapshot := View();
      var existing := set g | g in groups && groups[g] == p.group;
      if existing != {} {
        var g :| g in existing;
        assert forall h :: h in groups && groups[h] == p.group ==> h == g;
        if Protected(View(), g) {
          return false;
        }
        DeleteGroup(g);
      } else {
        assert forall h :: h in groups && groups[h] == p.group ==> h in existing;
      }
      ok := EndpointFree(p);
      if !ok {
        groups, members, tracks := snapshot.groups, snapshot.members, snapshot.tracks;
        return false;
      }
      InsertAll(p);
    }

    /** UPDATE of members: a row already awaiting deletion keeps its restore column,
        any other records its status there. */
    method MarkMembers(memberIds: set<nat>)
      modifies `members
      ensures members.Keys == old(members).Keys
      ensures forall m :: m in members ==> members[m] == if m in memberIds then Marked(old(members)[m]) else old(members)[m]
    {
      members := map m | m in members :: if m !in memberIds then members[m] else
        members[m].(restore := if members[m].status == PendingDelete then members[m].restore else Some(members[m].status),
                    status := PendingDelete);
    }

    method MarkTracks(memberIds: set<nat>)
      modifies `tracks
      ensures tracks.Keys == old(tracks).Keys
      ensures forall t :: t in tracks ==>
        tracks[t] == if old(tracks)[t].memberId in memberIds then MarkedTrack(old(tracks)[t]) else old(tracks)[t]
    {
      tracks := map t | t in tracks :: if tracks[t].memberId !in memberIds then tracks[t] else
        tracks[t].(restore := if tracks[t].status == PendingDelete then tracks[t].restore else Some(tracks[t].status),
                   status := PendingDelete);
    }

    /** The members' and then the tracks' rows, by the ids of the group's members. */
    method MarkRows(id: nat) returns (hosts: set<string>)
      modifies this
      ensures View() == MarkGroup(old(View()), id)
      ensures forall h :: h in hosts <==> exists m :: InGroup(old(View()), m, id) && old(members)[m].at.host == h
    {
      ghost var before := View();
      var memberIds := set m | m in members && members[m].fhrpId == id;
      hosts := set m | m in memberIds :: members[m].at.host;
      if memberIds != {} {
        MarkMembers(memberIds);
        MarkTracks(memberIds);
      }
      MarkedByIds(before, id, memberIds, members, tracks);
    }

    /** Where nothing of the group was marked, one cancel brings the old tables back. */
    method MarkGroupForDelete(id: nat) returns (hosts: set<string>)
      requires Valid()
      modifies this
      ensures Valid() && View() == MarkGroup(old(View()), id)
      ensures forall h :: h in hosts <==> exists m :: InGroup(old(View()), m, id) && old(members)[m].at.host == h
      ensures Unmarked(old(View()), id) ==> MarkOf(old(View()), View(), id) && CancelGroup(View(), id) == old(View())
    {
      MarkSound(View(), id);
      MarkUndone(View(), id);
      hosts := MarkRows(id);
    }

    method RestoreTracks(memberIds: set<nat>)
      modifies `tracks
      ensures tracks.Keys == old(tracks).Keys
      ensures forall t :: t in tracks ==>
        tracks[t] == if old(tracks)[t].memberId in memberIds then RestoredTrack(old(tracks)[t]) else old(tracks)[t]
    {
      tracks := map t | t in tracks ::
        if tracks[t].memberId in memberIds && tracks[t].status == PendingDelete
        then tracks[t].(status := if tracks[t].restore.Some? then tracks[t].restore.value else PendingApply, restore := None)
        else tracks[t];
    }

    method RestoreMembers(memberIds: set<nat>)
      modifies `members
      ensures members.Keys == old(members).Keys
      ensures forall m :: m in members ==> members[m] == if m in memberIds then RestoredMember(old(members)[m]) else old(members)[m]
    {
      members := map m | m in members ::
        if m in memberIds && members[m].status == PendingDelete
        then members[m].(status := if members[m].restore.Some? then members[m].restore.value else PendingApply, restore := None)
        else members[m];
    }

    /** Tracks first, then members, both by the ids of the marked members. */
    method RestoreRows(id: nat) returns (hosts: set<string>)
      modifies this
      ensures View() == CancelGroup(old(View()), id)
      ensures forall h :: h in hosts <==> exists m :: MarkedIn(old(View()), m, id) && old(members)[m].at.host == h
      ensures hosts == {} ==> View() == old(View())
    {
      ghost var before := View();
      var memberIds := set m | m in members && members[m].fhrpId == id && members[m].status == PendingDelete;
      hosts := set m | m in memberIds :: members[m].at.host;
      if memberIds != {} {
        RestoreTracks(memberIds);
        RestoreMembers(memberIds);
      }
      RestoredByIds(before, id, memberIds, members, tracks);
      assert forall m :: m in memberIds ==> before.members[m].at.host in hosts;
    }

    /** Reports no host, and changes nothing, when nothing of the group is marked.
        Whatever tables the mark was put on, the members still there get their state
        and their tracks back. */
    method CancelGroupDelete(id: nat) returns (hosts: set<string>)
      requires Valid()
      modifies this
      ensures Valid() && View() == CancelGroup(old(View()), id)
      ensures forall h :: h in hosts <==> exists m :: MarkedIn(old(View()), m, id) && old(members)[m].at.host == h
      ensures hosts == {} ==> View() == old(View())
      ensures forall origin :: Sound(origin) && Unmarked(origin, id) && MarkOf(origin, old(View()), id) ==>
        RestoredTo(origin, View(), id)
    {
      CancelSound(View(), id);
      CancelRestoresAll(View(), id);
      hosts := RestoreRows(id);
    }

    method ApplySuccess(task: Task)
      modifies this
      ensures View() == Succeed(old(View()), task)
    {
      if task.action.Remove? {
        tracks := map t | t in tracks && tracks[t].memberId != task.memberId :: tracks[t];
        members := members - {task.memberId};
        if !(exists m :: m in members && members[m].fhrpId == task.fhrpId) {
          groups := groups - {task.fhrpId};
        }
      } else {
        if task.memberId in members {
          members := members[task.memberId := members[task.memberId].(status := Synchronized, restore := None)];
        }
        tracks := map t | t in tracks :: if tracks[t].memberId == task.memberId && tracks[t].status.PendingApply?
          then tracks[t].(status := Synchronized, restore := None) else tracks[t];
      }
    }

    /** `ids` are the host's pending members in id order, as the query returns them. */
    method CollectTasks(host: string, ids: seq<nat>) returns (tasks: seq<Task>)
      requires Valid() && Elements(ids) == PendingOn(View(), host) && NoRepeats(ids)
      ensures |tasks| == |ids|
      ensures forall i :: 0 <= i < |ids| ==> Pending(View(), ids[i]) && tasks[i] == TaskOf(View(), ids[i])
      ensures forall i :: 0 <= i < |ids| ==>
        ids[i] in members && members[ids[i]].fhrpId in groups
        && var task, row, group := tasks[i], members[ids[i]], groups[members[ids[i]].fhrpId];
        && task.memberId == ids[i] && task.fhrpId == row.fhrpId && task.vip == group.vip
        && (task.action.Remove? <==> row.status.PendingDelete?)
        && task.key.at == row.at && task.key.protocol == group.protocol && task.key.number == group.number
      ensures forall i, j :: 0 <= i < j < |tasks| ==> tasks[i].key != tasks[j].key
      ensures forall i :: 0 <= i < |tasks| ==> tasks[i].key.at.host == host && Current(View(), tasks[i])
    {
      tasks := [];
      assert forall i :: 0 <= i < |ids| ==> ids[i] in Elements(ids);
      for i := 0 to |ids|
        invariant |tasks| == i
        invariant forall k :: 0 <= k < i ==> Pending(View(), ids[k]) && tasks[k] == TaskOf(View(), ids[k])
      {
        var row := members[ids[i]];
        var group := groups[row.fhrpId];
        tasks := tasks + [Task(if row.status.PendingDelete? then Remove else Setup, ids[i], row.fhrpId, KeyOf(row.at, group), group.vip)];
      }
      forall i, j | 0 <= i < j < |tasks|
        ensures tasks[i].key != tasks[j].key
      {
        assert !SameKey(View(), ids[i], ids[j]);
      }
    }

    /** Verify a batch and advance what is confirmed; a failure stops no other task. */
    method VerifyAfterPush(tasks: seq<Task>, shown: Shown) returns (succeeded: nat, failed: nat)
      modifies this
      ensures View() == VerifyBatch(old(View()), tasks, shown).0
      ensures succeeded == |set i: nat | i < |tasks| && Verified(tasks[i], shown)| && succeeded + failed == |tasks|
    {
      succeeded, failed := 0, 0;
      for i := 0 to |tasks|
        invariant VerifyBatch(old(View()), tasks[..i], shown) == (View(), succeeded)
        invariant succeeded + failed == i
      {
        assert tasks[..i + 1][..i] == tasks[..i];
        if Verified(tasks[i], shown) {
          ApplySuccess(tasks[i]);
          succeeded := succeeded + 1;
        } else {
          failed := failed + 1;
        }
      }
      assert tasks[..|tasks|] == tasks;
      VerifiedCount(old(View()), tasks, shown);
    }
  }
}
